/** The billing handlers and tasks as they run: statements of one transaction each over the tables, proved against the
    functions of `Ledger`, `LiquidBilling` and `MetalBilling` (crates/api/src/billing.rs:176-452, 635-869). */
module BillingTables {
  import opened Prelude
  import opened Ledger
  import L = LiquidBilling
  import M = MetalBilling

  /** UPDATE credit_ledger SET balance_after for the rows of a session. */
  function Patched(ledger: seq<Entry>, session: string, balance: int): (r: seq<Entry>)
    ensures |r| == |ledger|
    ensures forall k :: 0 <= k < |r| ==> r[k] == if ledger[k].posting.session == Some(session)
                                                 then ledger[k].(balanceAfter := balance) else ledger[k]
  {
    seq(|ledger|, k requires 0 <= k < |ledger| =>
      if ledger[k].posting.session == Some(session) then ledger[k].(balanceAfter := balance) else ledger[k])
  }

  /** In a ledger without the session, the patch reaches exactly the placeholder row that was just inserted. */
  lemma PatchReachesThePlaceholder(ledger: seq<Entry>, p: Posting, session: string, balance: int, at: int)
    requires !HasSession(ledger, session) && p.session == Some(session)
    ensures Patched(ledger + [Entry(p, 0, at)], session, balance) == ledger + [Entry(p, balance, at)]
  {
  }

  lemma MarkingInTwo(usage: seq<Usage>, a: set<nat>, b: set<nat>)
    ensures L.MarkBilled(L.MarkBilled(usage, a), b) == L.MarkBilled(usage, a + b)
  {
  }

  /** array_agg(id): the locked rows of one workspace. */
  function IdsOf(usage: seq<Usage>, locked: set<nat>, workspace: string): set<nat> {
    set i | i in locked && i < |usage| && usage[i].workspace == workspace
  }

  function IdsOfAll(usage: seq<Usage>, locked: set<nat>, groups: seq<string>): set<nat> {
    set i | i in locked && i < |usage| && usage[i].workspace in groups
  }

  /** The tables when the first `n` groups have been billed and their events marked. */
  function PartlyAggregated(b: Books, batch: L.Batch, now: int, n: nat): Books
    requires n <= |batch.groups| && L.AllPresent(b, batch.rows, batch.groups)
  {
    L.BillGroups(b, batch.rows, batch.groups[..n], now).(
      usage := L.MarkBilled(b.usage, IdsOfAll(b.usage, batch.locked, batch.groups[..n])))
  }

  lemma PostIgnoresMarks(b: Books, usage: seq<Usage>, p: Posting, now: int)
    requires p.workspace in b.accounts
    ensures PostAndSuspend(b.(usage := usage), p, now) == PostAndSuspend(b, p, now).(usage := usage)
  {
    assert HasActive(Post(b.(usage := usage), p, now), p.workspace) <==> HasActive(Post(b, p, now), p.workspace);
  }

  /** Billing one group does not look at the usage table. */
  lemma GroupIgnoresMarks(b: Books, usage: seq<Usage>, workspace: string, row: L.Row, now: int)
    requires workspace in b.accounts
    ensures L.BillGroup(b.(usage := usage), workspace, row, now)
         == L.BillGroup(b, workspace, row, now).(usage := usage)
  {
    var consumed := L.ConsumeFree(b, workspace, L.FreeConsumed(row.invocations, row.freeUsed));
    assert L.ConsumeFree(b.(usage := usage), workspace, L.FreeConsumed(row.invocations, row.freeUsed))
        == consumed.(usage := usage);
    PostIgnoresMarks(consumed, usage, L.UsagePosting(workspace, L.Cost(L.Billable(row.invocations, row.freeUsed))),
                     now);
  }

  lemma IdsAdd(usage: seq<Usage>, locked: set<nat>, groups: seq<string>, n: nat)
    requires n < |groups|
    ensures IdsOfAll(usage, locked, groups[..n + 1])
         == IdsOfAll(usage, locked, groups[..n]) + IdsOf(usage, locked, groups[n])
  {
    assert groups[..n + 1] == groups[..n] + [groups[n]];
  }

  lemma OneMoreGroup(b: Books, batch: L.Batch, now: int, n: nat)
    requires L.IsOpen(b, batch) && n < |batch.groups|
    ensures var c, ws := PartlyAggregated(b, batch, now, n), batch.groups[n];
            && ws in c.accounts
            && PartlyAggregated(b, batch, now, n + 1)
               == L.BillGroup(c, ws, batch.rows[ws], now).(
                    usage := L.MarkBilled(c.usage, IdsOf(b.usage, batch.locked, ws)))
  {
    var groups, locked := batch.groups, batch.locked;
    var before, ws := L.BillGroups(b, batch.rows, groups[..n], now), groups[n];
    assert groups[..n + 1][..n] == groups[..n] && ws !in groups[..n];
    GroupIgnoresMarks(before, PartlyAggregated(b, batch, now, n).usage, ws, batch.rows[ws], now);
    MarkingInTwo(b.usage, IdsOfAll(b.usage, locked, groups[..n]), IdsOf(b.usage, locked, ws));
    IdsAdd(b.usage, locked, groups, n);
  }

  lemma AllGroups(b: Books, batch: L.Batch, now: int)
    requires L.IsOpen(b, batch)
    ensures PartlyAggregated(b, batch, now, |batch.groups|) == L.Aggregated(b, batch, now)
  {
    assert batch.groups[..|batch.groups|] == batch.groups;
    assert IdsOfAll(b.usage, batch.locked, batch.groups) == batch.locked by {
      forall i | i in batch.locked ensures i in IdsOfAll(b.usage, batch.locked, batch.groups) {
        assert L.IsUnbilled(b, i, batch.groups);
      }
    }
  }

  lemma NoGroups(b: Books, batch: L.Batch, now: int)
    requires L.AllPresent(b, batch.rows, batch.groups)
    ensures PartlyAggregated(b, batch, now, 0) == b
  {
    assert IdsOfAll(b.usage, batch.locked, batch.groups[..0]) == {};
    assert L.MarkBilled(b.usage, {}) == b.usage;
  }

  lemma OneMoreService(b: Books, ids: seq<string>, now: int, n: nat)
    requires (forall id :: id in ids ==> M.Billable(b, id)) && n < |ids|
    ensures M.Billable(M.BillMonths(b, ids[..n], now), ids[n])
    ensures M.BillMonths(b, ids[..n + 1], now) == M.BillMonth(M.BillMonths(b, ids[..n], now), ids[n], now)
  {
    assert ids[..n + 1][..n] == ids[..n];
    assert M.Billable(b, ids[n]);
    assert M.SameButCycle(b.services[ids[n]], M.BillMonths(b, ids[..n], now).services[ids[n]]);
  }

  class Tables {
    var accounts: map<string, Account>
    var customers: map<string, string>
    var services: map<string, Service>
    var usage: seq<Usage>
    var ledger: seq<Entry>
    var notices: seq<Notice>

    function Current(): Books
      reads this
    {
      Books(accounts, customers, services, usage, ledger, notices)
    }

    constructor (b: Books)
      ensures Current() == b
    {
      accounts, customers, services := b.accounts, b.customers, b.services;
      usage, ledger, notices := b.usage, b.ledger, b.notices;
    }

    /** `deduct_balance`, or with a negative cost a credit: the balance first, then the row with what it returned. */
    method DeductBalance(p: Posting, now: int) returns (balanceAfter: int)
      requires p.workspace in accounts
      modifies this`accounts, this`ledger
      ensures Current() == Post(old(Current()), p, now)
      ensures balanceAfter == accounts[p.workspace].balance
    {
      balanceAfter := accounts[p.workspace].balance + p.amount;
      accounts := accounts[p.workspace := accounts[p.workspace].(balance := balanceAfter)];
      ledger := ledger + [Entry(p, balanceAfter, now)];
    }

    method InsertSuspendOutbox(workspace: string)
      modifies this`notices
      ensures Current() == QueueSuspend(old(Current()), workspace)
    {
      if HasActive(Current(), workspace) { notices := notices + [Suspend(workspace)]; }
    }

    method HandleCheckoutCompleted(isTopUp: bool, session: Option<string>, customer: Option<string>,
                                   amountTotal: Option<int>, intent: Option<string>, now: int)
      returns (outcome: Outcome)
      modifies this`ledger, this`accounts, this`notices
      ensures !isTopUp ==> outcome == Ignored && Current() == old(Current())
      ensures isTopUp && (session.None? || customer.None?) ==> outcome == Rejected && Current() == old(Current())
      ensures isTopUp && session.Some? && customer.Some?
        ==> (Current(), outcome) == Checkout(old(Current()), customer.value, session.value,
                                             if amountTotal.Some? then amountTotal.value else 0,
                                             if intent.Some? then intent.value else "", now)
    {
      if !isTopUp { return Ignored; }
      if session.None? || customer.None? { return Rejected; }
      var cents := if amountTotal.Some? then amountTotal.value else 0;
      var reference := if intent.Some? then intent.value else "";
      var savepoint := ledger;

      // INSERT ... SELECT: one placeholder row for the customer's workspace, or none
      if Known(Current(), customer.value) {
        if HasSession(ledger, session.value) { return Duplicate; }
        var p := TopUpPosting(customers[customer.value], cents, session.value, reference);
        ledger := ledger + [Entry(p, 0, now)];
      }

      // UPDATE ... RETURNING: no row is an error, and the transaction rolls back
      if !Known(Current(), customer.value) {
        ledger := savepoint;
        return Rejected;
      }
      var workspace := customers[customer.value];
      var balanceAfter := accounts[workspace].balance + cents * MICROCREDITS_PER_CENT;
      accounts := accounts[workspace := accounts[workspace].(balance := balanceAfter)];

      PatchReachesThePlaceholder(savepoint, TopUpPosting(workspace, cents, session.value, reference), session.value,
                                 balanceAfter, now);
      ledger := Patched(ledger, session.value, balanceAfter);
      if balanceAfter > 0 { notices := notices + [Unsuspend(workspace)]; }
      outcome := Applied;
    }

    method HandleChargeRefunded(amountRefunded: Option<int>, customer: Option<string>, charge: string, now: int)
      returns (outcome: Outcome)
      modifies this`ledger, this`accounts, this`notices
      ensures (Current(), outcome) == Refunded(old(Current()), customer,
                                               if amountRefunded.Some? then amountRefunded.value else 0, charge, now)
    {
      var cents := if amountRefunded.Some? then amountRefunded.value else 0;
      if cents == 0 { return Ignored; }
      if customer.None? || !Known(Current(), customer.value) { return Rejected; }
      var p := Posting(customers[customer.value], -(cents * MICROCREDITS_PER_CENT), Refund, charge, None, None);
      var balanceAfter := DeductBalance(p, now);
      if balanceAfter <= 0 { InsertSuspendOutbox(p.workspace); }
      outcome := Applied;
    }

    /** The query of `handle_payment_failed`, on a connection and before a transaction of its own. */
    method LookUpTopUp(intent: string) returns (found: Lookup)
      ensures found == LookUp(Current(), intent)
    {
      var topUps := TopUpsFor(ledger, intent);
      if topUps == [] { return NoTopUp; }
      if |topUps| > 1 { return Ambiguous; }
      return Found(topUps[0]);
    }

    /** What the handler does with the answer, however the tables have changed since. */
    method ReverseTopUp(found: Lookup, intent: string, now: int) returns (outcome: Outcome)
      modifies this`ledger, this`accounts, this`notices
      ensures (Current(), outcome) == Reverse(old(Current()), found, intent, now)
    {
      match found {
        case NoTopUp => outcome := Ignored;
        case Ambiguous => outcome := Rejected;
        case Found(p) =>
          if p.workspace !in accounts { return Rejected; }
          var balanceAfter := DeductBalance(Reversal(p, intent), now);
          if balanceAfter <= 0 { InsertSuspendOutbox(p.workspace); }
          outcome := Applied;
      }
    }

    method UseFreeInvocations(workspace: string, consumed: int)
      requires workspace in accounts && consumed > 0
      modifies this`accounts
      ensures Current() == L.ConsumeFree(old(Current()), workspace, consumed)
    {
      var account := accounts[workspace];
      accounts := accounts[workspace := account.(freeUsed := account.freeUsed + consumed)];
    }

    method ChargeUsage(workspace: string, billable: int, now: int)
      requires workspace in accounts && billable > 0
      modifies this`accounts, this`ledger, this`notices
      ensures Current() == L.Charge(old(Current()), workspace, billable, now)
    {
      var cost := L.Cost(billable);
      if cost > 0 {
        var balanceAfter := DeductBalance(L.UsagePosting(workspace, cost), now);
        if balanceAfter <= 0 { InsertSuspendOutbox(workspace); }
      }
    }

    /** One row of the aggregation: free part, charge and marks. The row is what the query read. */
    method BillGroup(workspace: string, row: L.Row, ids: set<nat>, now: int)
      requires workspace in accounts
      modifies this
      ensures Current() == L.BillGroup(old(Current()), workspace, row, now).(usage := L.MarkBilled(old(usage), ids))
    {
      var freeRemaining := L.Max(L.FREE - row.freeUsed, 0);
      var freeConsumed := L.Min(row.invocations, freeRemaining);
      var billable := row.invocations - freeConsumed;
      if freeConsumed > 0 { UseFreeInvocations(workspace, freeConsumed); }
      ghost var consumed := L.ConsumeFree(old(Current()), workspace, L.FreeConsumed(row.invocations, row.freeUsed));
      assert Current() == consumed;
      if billable > 0 { ChargeUsage(workspace, billable, now); }
      assert Current() == L.Charge(consumed, workspace, L.Billable(row.invocations, row.freeUsed), now);
      usage := L.MarkBilled(usage, ids);
    }

    /** The aggregation after its query, in the same transaction. Others may have committed since, and the loop itself
        changes the tables it goes on with. */
    method AggregateOnce(batch: L.Batch, now: int)
      requires L.IsOpen(Current(), batch)
      modifies this
      ensures Current() == L.Aggregated(old(Current()), batch, now)
    {
      ghost var b := Current();
      NoGroups(b, batch, now);
      var queried := usage;
      var i := 0;
      while i < |batch.groups|
        invariant 0 <= i <= |batch.groups|
        invariant Current() == PartlyAggregated(b, batch, now, i)
      {
        var ws := batch.groups[i];
        OneMoreGroup(b, batch, now, i);
        BillGroup(ws, batch.rows[ws], IdsOf(queried, batch.locked, ws), now);
        i := i + 1;
      }
      AllGroups(b, batch, now);
    }

    /** One transaction over the due services this instance could lock. */
    method MetalBillingOnce(ids: seq<string>, now: int)
      requires M.IsPass(Current(), ids, now)
      modifies this
      ensures Current() == M.BillMonths(old(Current()), ids, now)
    {
      var i := 0;
      while i < |ids|
        invariant 0 <= i <= |ids|
        invariant Current() == M.BillMonths(old(Current()), ids[..i], now)
      {
        OneMoreService(old(Current()), ids, now, i);
        BillMonth(ids[i], now);
        i := i + 1;
      }
      assert ids[..|ids|] == ids;
    }

    method BillMonth(id: string, now: int)
      requires M.Billable(Current(), id)
      modifies this
      ensures Current() == M.BillMonth(old(Current()), id, now)
    {
      var s := services[id];
      var cost := s.price.value * MICROCREDITS_PER_CENT;
      if cost > 0 {
        var balanceAfter := DeductBalance(M.MonthPosting(id, s.workspace, s.price.value), now);
        InsertSuspendOutbox(s.workspace);
        if balanceAfter <= 0 {}
      }
      services := services[id := s.(cycleStart := s.cycleStart + M.MONTH)];
    }

    /** The billing part of a deploy's transaction. */
    method Deploy(id: string, workspace: string, price: Option<nat>, now: int)
      requires workspace in accounts && id !in services
      modifies this
      ensures Current() == M.Deployed(old(Current()), id, workspace, price, now)
    {
      services := services[id := Service(workspace, price, now, now, true, false)];
      if price.Some? {
        var _ := DeductBalance(M.MonthPosting(id, workspace, price.value), now);
      }
    }

    method FreeInvocationsResetOnce(due: set<string>)
      modifies this`accounts
      ensures Current() == L.FreeReset(old(Current()), due)
      ensures accounts.Keys == old(accounts).Keys
      ensures forall ws :: ws in accounts ==> accounts[ws].balance == old(accounts)[ws].balance
      ensures forall ws :: ws in accounts && ws in due && !accounts[ws].deleted
                ==> L.FreeLeft(accounts[ws].freeUsed) == L.FREE
    {
      accounts := map ws | ws in accounts ::
        if ws in due && !accounts[ws].deleted then accounts[ws].(freeUsed := 0) else accounts[ws];
    }
  }
}
