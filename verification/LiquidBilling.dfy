/** Billing of Liquid invocations: the free allowance and the usage aggregator (crates/api/src/billing.rs:176-251,
    355-376; crates/common/src/pricing.rs:55-59). Amounts are 64-bit, so the product of the price wraps. */
module LiquidBilling {
  import opened Prelude
  import opened Ledger

  /** Free invocations per workspace and month. */
  const FREE: int := 1_000_000

  /** Price of a million invocations in micro-credits. */
  const PRICE_PER_MILLION: int := 300_000

  const TWO_63: int := 0x8000_0000_0000_0000
  const TWO_64: int := 0x1_0000_0000_0000_0000

  function Min(a: int, b: int): int { if a <= b then a else b }

  function Max(a: int, b: int): int { if a <= b then b else a }

  function FreeConsumed(invocations: int, freeUsed: int): int { Min(invocations, Max(FREE - freeUsed, 0)) }

  function Billable(invocations: int, freeUsed: int): int { invocations - FreeConsumed(invocations, freeUsed) }

  function WrapI64(n: int): int {
    var r := n % TWO_64;
    if r < TWO_63 then r else r - TWO_64
  }

  function Cost(billable: int): int { TruncDiv(WrapI64(billable * PRICE_PER_MILLION), 1_000_000) }

  /** The largest count whose price still fits in 64 bits. */
  const MAX_BILLABLE: int := 30_744_573_456_182

  lemma WrapIsIdentityInRange(n: int)
    ensures -TWO_63 <= WrapI64(n) < TWO_63
    ensures WrapI64(n) == n <==> -TWO_63 <= n < TWO_63
  {
  }

  /** The cost is three tenths of a micro-credit per invocation, rounded down, up to the overflow bound and never
      beyond it. */
  lemma CostIsExactUpToOverflow(billable: int)
    requires 0 <= billable
    ensures Cost(billable) == 3 * billable / 10 <==> billable <= MAX_BILLABLE
  {
    var product := billable * PRICE_PER_MILLION;
    WrapIsIdentityInRange(product);
    if billable <= MAX_BILLABLE {
      assert product / 1_000_000 == 3 * billable / 10;
    } else {
      assert WrapI64(product) <= product - TWO_64;
      assert WrapI64(product) < TWO_63;
    }
  }

  // ---- One aggregation: a query, and later a commit ----

  /** The query's sum for one workspace over the locked rows among the first `n` usage events. */
  function Total(usage: seq<Usage>, locked: set<nat>, workspace: string, n: nat): int
    requires n <= |usage|
  {
    if n == 0 then 0
    else Total(usage, locked, workspace, n - 1)
         + if n - 1 in locked && usage[n - 1].workspace == workspace then usage[n - 1].quantity else 0
  }

  function Invocations(usage: seq<Usage>, locked: set<nat>, workspace: string): int {
    Total(usage, locked, workspace, |usage|)
  }

  /** What the query returns for one workspace. */
  datatype Row = Row(invocations: int, freeUsed: int)

  /** An aggregation between its query and its commit: the events it has locked, and the query's groups in any order
      with what was read for each. */
  datatype Batch = Batch(locked: set<nat>, groups: seq<string>, rows: map<string, Row>)

  /** The query locks events only. The used allowance is what the workspaces table says at that moment. */
  function Queried(b: Books, locked: set<nat>, groups: seq<string>): Batch
    requires forall ws :: ws in groups ==> ws in b.accounts
  {
    Batch(locked, groups, map ws | ws in groups :: Row(Invocations(b.usage, locked, ws), b.accounts[ws].freeUsed))
  }

  predicate AllPresent(b: Books, rows: map<string, Row>, groups: seq<string>) {
    forall ws :: ws in groups ==> ws in b.accounts && ws in rows
  }

  predicate IsRowOf(b: Books, batch: Batch, ws: string) {
    ws in batch.rows && batch.rows[ws].invocations == Invocations(b.usage, batch.locked, ws)
  }

  predicate IsUnbilled(b: Books, i: nat, groups: seq<string>) {
    i < |b.usage| && !b.usage[i].billed && b.usage[i].workspace in groups
  }

  /** What a batch can rely on until it commits: its events are unbilled and add up to what it read. */
  ghost predicate IsOpen(b: Books, batch: Batch) {
    && (forall i :: i in batch.locked ==> IsUnbilled(b, i, batch.groups))
    && AllPresent(b, batch.rows, batch.groups)
    && (forall ws {:trigger IsRowOf(b, batch, ws)} :: ws in batch.groups ==> IsRowOf(b, batch, ws))
    && (forall ws :: ws in batch.rows ==> ws in batch.groups)
    && Distinct(batch.groups)
  }

  function ConsumeFree(b: Books, workspace: string, consumed: int): Books
    requires workspace in b.accounts
  {
    var account := b.accounts[workspace];
    if consumed <= 0 then b
    else b.(accounts := b.accounts[workspace := account.(freeUsed := account.freeUsed + consumed)])
  }

  function UsagePosting(workspace: string, cost: int): Posting {
    Posting(workspace, -cost, UsageLiquid, "", None, None)
  }

  function Charge(b: Books, workspace: string, billable: int, at: int): Books
    requires workspace in b.accounts
  {
    if billable > 0 && Cost(billable) > 0 then PostAndSuspend(b, UsagePosting(workspace, Cost(billable)), at) else b
  }

  /** One group: what is free is computed from what the query read, and added to what the counter is by now. */
  function BillGroup(b: Books, workspace: string, row: Row, at: int): Books
    requires workspace in b.accounts
  {
    var consumed := ConsumeFree(b, workspace, FreeConsumed(row.invocations, row.freeUsed));
    Charge(consumed, workspace, Billable(row.invocations, row.freeUsed), at)
  }

  function BillGroups(b: Books, rows: map<string, Row>, groups: seq<string>, at: int): (r: Books)
    requires AllPresent(b, rows, groups)
    ensures r.accounts.Keys == b.accounts.Keys && r.usage == b.usage
    ensures r.customers == b.customers && r.services == b.services
    decreases |groups|
  {
    if groups == [] then b
    else
      var ws := groups[|groups| - 1];
      BillGroup(BillGroups(b, rows, groups[..|groups| - 1], at), ws, rows[ws], at)
  }

  function MarkBilled(usage: seq<Usage>, ids: set<nat>): (r: seq<Usage>)
    ensures |r| == |usage|
    ensures forall i :: 0 <= i < |usage| ==> r[i] == if i in ids then usage[i].(billed := true) else usage[i]
  {
    seq(|usage|, i requires 0 <= i < |usage| => if i in ids then usage[i].(billed := true) else usage[i])
  }

  /** The commit. */
  function Aggregated(b: Books, batch: Batch, at: int): Books
    requires AllPresent(b, batch.rows, batch.groups)
  {
    BillGroups(b, batch.rows, batch.groups, at).(usage := MarkBilled(b.usage, batch.locked))
  }

  /** `free_invocations_reset_once`, for the workspaces whose month is over. */
  function FreeReset(b: Books, due: set<string>): Books {
    b.(accounts := map ws | ws in b.accounts ::
         if ws in due && !b.accounts[ws].deleted then b.accounts[ws].(freeUsed := 0) else b.accounts[ws])
  }

  // ---- What one aggregation does to one workspace ----

  function SumUsageCharges(ledger: seq<Entry>, workspace: string): int {
    if ledger == [] then 0
    else
      var p := ledger[|ledger| - 1].posting;
      SumUsageCharges(ledger[..|ledger| - 1], workspace)
      + if p.workspace == workspace && p.kind == UsageLiquid then -p.amount else 0
  }

  lemma SumUsageSnoc(ledger: seq<Entry>, e: Entry, workspace: string)
    ensures SumUsageCharges(ledger + [e], workspace) == SumUsageCharges(ledger, workspace)
         + if e.posting.workspace == workspace && e.posting.kind == UsageLiquid then -e.posting.amount else 0
  {
    assert (ledger + [e])[..|ledger + [e]| - 1] == ledger;
  }

  /** What is charged for `billable` invocations. */
  function Fee(billable: int): int { if billable > 0 && Cost(billable) > 0 then Cost(billable) else 0 }

  lemma ChargeBillsItsWorkspace(b: Books, workspace: string, billable: int, at: int, ws: string)
    requires workspace in b.accounts && ws in b.accounts
    ensures var r := Charge(b, workspace, billable, at);
            && r.accounts[ws].freeUsed == b.accounts[ws].freeUsed
            && (ws != workspace ==> r.accounts[ws] == b.accounts[ws])
            && SumUsageCharges(r.ledger, ws)
               == SumUsageCharges(b.ledger, ws) + if ws == workspace then Fee(billable) else 0
  {
    if Fee(billable) > 0 {
      var p := UsagePosting(workspace, Cost(billable));
      var posted := Post(b, p, at);
      SumUsageSnoc(b.ledger, Entry(p, posted.accounts[workspace].balance, at), ws);
    }
  }

  predicate BilledBy(b: Books, r: Books, ws: string, row: Row)
    requires ws in b.accounts && ws in r.accounts
  {
    && r.accounts[ws].freeUsed == b.accounts[ws].freeUsed + Max(FreeConsumed(row.invocations, row.freeUsed), 0)
    && SumUsageCharges(r.ledger, ws)
       == SumUsageCharges(b.ledger, ws) + Fee(Billable(row.invocations, row.freeUsed))
  }

  predicate NotBilledBy(b: Books, r: Books, ws: string)
    requires ws in b.accounts && ws in r.accounts
  {
    r.accounts[ws] == b.accounts[ws] && SumUsageCharges(r.ledger, ws) == SumUsageCharges(b.ledger, ws)
  }

  /** One group moves its own workspace by the free part and the fee, and no other workspace at all. */
  lemma GroupBillsItsWorkspace(b: Books, workspace: string, row: Row, at: int, ws: string)
    requires workspace in b.accounts && ws in b.accounts
    ensures var r := BillGroup(b, workspace, row, at);
            if ws == workspace then BilledBy(b, r, ws, row) else NotBilledBy(b, r, ws)
  {
    var consumed := ConsumeFree(b, workspace, FreeConsumed(row.invocations, row.freeUsed));
    assert ws != workspace ==> consumed.accounts[ws] == b.accounts[ws];
    ChargeBillsItsWorkspace(consumed, workspace, Billable(row.invocations, row.freeUsed), at, ws);
  }

  /** A batch moves each of its workspaces once, by its own row, whatever the order of the groups. */
  lemma {:induction false} GroupsBillEachWorkspaceOnce(b: Books, rows: map<string, Row>, groups: seq<string>, at: int,
                                                      ws: string)
    requires AllPresent(b, rows, groups) && Distinct(groups) && ws in b.accounts
    ensures var r := BillGroups(b, rows, groups, at);
            if ws in groups then BilledBy(b, r, ws, rows[ws]) else NotBilledBy(b, r, ws)
    decreases |groups|
  {
    if groups != [] {
      var init, last := groups[..|groups| - 1], groups[|groups| - 1];
      assert forall k :: 0 <= k < |init| ==> init[k] != last;
      GroupsBillEachWorkspaceOnce(b, rows, init, at, ws);
      GroupBillsItsWorkspace(BillGroups(b, rows, init, at), last, rows[last], at, ws);
    }
  }

  /** The invocations of a workspace that have been billed, free or not. */
  function BilledTotal(usage: seq<Usage>, workspace: string, n: nat): int
    requires n <= |usage|
  {
    if n == 0 then 0
    else BilledTotal(usage, workspace, n - 1)
         + if usage[n - 1].billed && usage[n - 1].workspace == workspace then usage[n - 1].quantity else 0
  }

  function Billed(usage: seq<Usage>, workspace: string): int { BilledTotal(usage, workspace, |usage|) }

  lemma {:induction false} MarkingAddsTheTotal(usage: seq<Usage>, locked: set<nat>, workspace: string, n: nat)
    requires n <= |usage| && forall i :: i in locked ==> i < |usage| && !usage[i].billed
    ensures BilledTotal(MarkBilled(usage, locked), workspace, n)
         == BilledTotal(usage, workspace, n) + Total(usage, locked, workspace, n)
  {
    if n > 0 { MarkingAddsTheTotal(usage, locked, workspace, n - 1); }
  }

  lemma {:induction false} TotalOfOthers(usage: seq<Usage>, locked: set<nat>, workspace: string, n: nat)
    requires n <= |usage|
    requires forall i :: i in locked ==> i < |usage| && usage[i].workspace != workspace
    ensures Total(usage, locked, workspace, n) == 0
  {
    if n > 0 { TotalOfOthers(usage, locked, workspace, n - 1); }
  }

  lemma {:induction false} TotalIsNat(usage: seq<Usage>, locked: set<nat>, workspace: string, n: nat)
    requires n <= |usage| && forall i :: 0 <= i < |usage| ==> usage[i].quantity >= 0
    ensures Total(usage, locked, workspace, n) >= 0
  {
    if n > 0 { TotalIsNat(usage, locked, workspace, n - 1); }
  }

  // ---- The allowance over any split into batches ----

  /** Where a workspace stands that entered the period with `u0` invocations of its allowance used: the allowance covers
      the first invocations, and the fees are three tenths of the rest less at most nine tenths of a micro-credit per
      batch. */
  predicate InAccount(freeUsed: int, total: int, tenths: int, u0: int, batches: nat) {
    var beyond := Max(u0 + total - FREE, 0);
    total >= 0 && freeUsed == Min(u0 + total, FREE) && 3 * beyond - 9 * batches <= tenths <= 3 * beyond
  }

  /** The usage charges of a workspace in tenths of a micro-credit. */
  function TenthsCharged(b: Books, ws: string): int { 10 * SumUsageCharges(b.ledger, ws) }

  /** The same of the books, when `n0` invocations had been billed and `c0` tenths charged at the period's start. */
  ghost predicate AllowanceHolds(b: Books, ws: string, u0: int, n0: int, c0: int, batches: nat)
    requires ws in b.accounts
  {
    InAccount(b.accounts[ws].freeUsed, Billed(b.usage, ws) - n0, TenthsCharged(b, ws) - c0, u0, batches)
  }

  /** The row's part of a batch is below the overflow bound. */
  predicate Affordable(row: Row) { Billable(row.invocations, row.freeUsed) <= MAX_BILLABLE }

  function FreeLeft(freeUsed: int): int { Max(FREE - freeUsed, 0) }

  /** The free part computed from what was read is the one due for what is used by now. */
  predicate Serves(row: Row, freeUsed: int) {
    FreeConsumed(row.invocations, row.freeUsed) == FreeConsumed(row.invocations, freeUsed)
  }

  /** A read serves exactly if it leaves as much as is left, or if the count fits what either leaves. */
  lemma ServesIff(row: Row, freeUsed: int)
    ensures Serves(row, freeUsed) <==>
            FreeLeft(row.freeUsed) == FreeLeft(freeUsed)
            || row.invocations <= Min(FreeLeft(row.freeUsed), FreeLeft(freeUsed))
  {
  }

  lemma FeeOf(billable: int)
    requires 0 <= billable <= MAX_BILLABLE
    ensures 3 * billable - 9 <= 10 * Fee(billable) <= 3 * billable
  {
    CostIsExactUpToOverflow(billable);
  }

  lemma FeesAdd(beyond: int, tenths: int, batches: nat, billable: int)
    requires 0 <= billable <= MAX_BILLABLE && 3 * beyond - 9 * batches <= tenths <= 3 * beyond
    ensures 3 * (beyond + billable) - 9 * (batches + 1) <= tenths + 10 * Fee(billable) <= 3 * (beyond + billable)
  {
    FeeOf(billable);
  }

  lemma FreePart(row: Row, u0: int, total: int)
    requires 0 <= u0 <= FREE && total >= 0 && row.invocations >= 0
    ensures var used := Min(u0 + total, FREE);
            && (used + Max(FreeConsumed(row.invocations, row.freeUsed), 0) == Min(u0 + total + row.invocations, FREE)
                <==> Serves(row, used))
            && (Serves(row, used) ==> Max(u0 + total - FREE, 0) + Billable(row.invocations, row.freeUsed)
                                      == Max(u0 + total + row.invocations - FREE, 0))
  {
  }

  lemma OneMoreRow(freeUsed: int, total: int, tenths: int, u0: int, batches: nat, row: Row)
    requires InAccount(freeUsed, total, tenths, u0, batches) && 0 <= u0 <= FREE
    requires row.invocations >= 0 && Billable(row.invocations, row.freeUsed) <= MAX_BILLABLE
    ensures InAccount(freeUsed + Max(FreeConsumed(row.invocations, row.freeUsed), 0), total + row.invocations,
                      tenths + 10 * Fee(Billable(row.invocations, row.freeUsed)), u0, batches + 1)
            <==> Serves(row, freeUsed)
  {
    FreePart(row, u0, total);
    FeesAdd(Max(u0 + total - FREE, 0), tenths, batches, Billable(row.invocations, row.freeUsed));
  }

  lemma RowIsCount(b: Books, batch: Batch, ws: string)
    requires IsOpen(b, batch) && ws in batch.groups && forall i :: 0 <= i < |b.usage| ==> b.usage[i].quantity >= 0
    ensures batch.rows[ws].invocations >= 0
  {
    TotalIsNat(b.usage, batch.locked, ws, |b.usage|);
    assert IsRowOf(b, batch, ws);
  }

  lemma BatchAdds(b: Books, batch: Batch, at: int, ws: string)
    requires IsOpen(b, batch) && ws in batch.groups
    ensures var r, row := Aggregated(b, batch, at), batch.rows[ws];
            Billed(r.usage, ws) == Billed(b.usage, ws) + row.invocations && BilledBy(b, r, ws, row)
  {
    GroupsBillEachWorkspaceOnce(b, batch.rows, batch.groups, at, ws);
    MarkingAddsTheTotal(b.usage, batch.locked, ws, |b.usage|);
    assert IsRowOf(b, batch, ws);
  }

  lemma BatchAddsNoOther(b: Books, batch: Batch, at: int, ws: string)
    requires IsOpen(b, batch) && ws !in batch.groups && ws in b.accounts
    ensures var r := Aggregated(b, batch, at);
            Billed(r.usage, ws) == Billed(b.usage, ws) && NotBilledBy(b, r, ws)
  {
    GroupsBillEachWorkspaceOnce(b, batch.rows, batch.groups, at, ws);
    MarkingAddsTheTotal(b.usage, batch.locked, ws, |b.usage|);
    TotalOfOthers(b.usage, batch.locked, ws, |b.usage|);
  }

  /** One more batch keeps the account of the allowance if and only if what it read serves when it commits. */
  lemma BatchKeepsAllowanceIff(b: Books, batch: Batch, at: int, ws: string, u0: int, n0: int, c0: int, batches: nat)
    requires IsOpen(b, batch) && ws in batch.groups && 0 <= u0 <= FREE
    requires forall i :: 0 <= i < |b.usage| ==> b.usage[i].quantity >= 0
    requires AllowanceHolds(b, ws, u0, n0, c0, batches) && Affordable(batch.rows[ws])
    ensures AllowanceHolds(Aggregated(b, batch, at), ws, u0, n0, c0, batches + 1)
            <==> Serves(batch.rows[ws], b.accounts[ws].freeUsed)
  {
    RowIsCount(b, batch, ws);
    OneMoreRow(b.accounts[ws].freeUsed, Billed(b.usage, ws) - n0, TenthsCharged(b, ws) - c0, u0, batches,
               batch.rows[ws]);
    BatchAdds(b, batch, at, ws);
  }

  lemma OtherBatchKeepsAllowance(b: Books, batch: Batch, at: int, ws: string, u0: int, n0: int, c0: int, batches: nat)
    requires IsOpen(b, batch) && ws !in batch.groups && ws in b.accounts
    requires AllowanceHolds(b, ws, u0, n0, c0, batches)
    ensures AllowanceHolds(Aggregated(b, batch, at), ws, u0, n0, c0, batches)
  {
    BatchAddsNoOther(b, batch, at, ws);
  }

  /** A batch moves the counter past the allowance exactly if it read less than is used by now and its count does not
      fit what is left. */
  lemma BatchStaysInAllowanceIff(b: Books, batch: Batch, at: int, ws: string)
    requires IsOpen(b, batch) && ws in batch.groups && 0 <= b.accounts[ws].freeUsed <= FREE
    ensures var used, after := b.accounts[ws].freeUsed, Aggregated(b, batch, at).accounts[ws].freeUsed;
            used <= after && (after <= FREE <==> Fits(batch.rows[ws], used))
  {
    GroupsBillEachWorkspaceOnce(b, batch.rows, batch.groups, at, ws);
  }

  predicate Fits(row: Row, freeUsed: int) { row.freeUsed >= freeUsed || row.invocations <= FREE - freeUsed }

  /** Marking is final: a billed event is in no open batch, and a batch bills its events. */
  lemma BilledOnce(b: Books, batch: Batch, at: int, i: nat, other: Batch)
    requires IsOpen(b, batch) && i < |b.usage|
    ensures var r := Aggregated(b, batch, at);
            && (r.usage[i].billed <==> b.usage[i].billed || i in batch.locked)
            && (r.usage[i].billed && IsOpen(r, other) ==> i !in other.locked)
  {
  }

  /** An aggregation queues a suspension only when a charge has left the workspace nothing. */
  lemma GroupSuspendsOnlyTheDepleted(b: Books, workspace: string, row: Row, at: int)
    requires workspace in b.accounts
    ensures var r, fee := BillGroup(b, workspace, row, at), Fee(Billable(row.invocations, row.freeUsed));
            r.notices == b.notices + if fee > 0 && r.accounts[workspace].balance <= 0 && HasActive(b, workspace)
                                     then [Suspend(workspace)] else []
  {
    var r := BillGroup(b, workspace, row, at);
    assert HasActive(r, workspace) <==> HasActive(b, workspace);
  }

  /** A reset begins a new account for each due workspace with nothing used, and leaves every other's as it was. */
  lemma ResetBeginsAPeriod(b: Books, due: set<string>, ws: string, u0: int, n0: int, c0: int, batches: nat)
    requires ws in b.accounts
    ensures var r := FreeReset(b, due);
            if ws in due && !b.accounts[ws].deleted
            then AllowanceHolds(r, ws, 0, Billed(b.usage, ws), TenthsCharged(b, ws), 0)
            else AllowanceHolds(r, ws, u0, n0, c0, batches) <==> AllowanceHolds(b, ws, u0, n0, c0, batches)
  {
  }

  // ---- An open batch stays open ----

  lemma {:induction false} TotalIgnoresNew(usage: seq<Usage>, u: Usage, locked: set<nat>, ws: string, n: nat)
    requires n <= |usage|
    ensures Total(usage + [u], locked, ws, n) == Total(usage, locked, ws, n)
  {
    if n > 0 { TotalIgnoresNew(usage, u, locked, ws, n - 1); }
  }

  lemma {:induction false} TotalIgnoresMarks(usage: seq<Usage>, ids: set<nat>, locked: set<nat>, ws: string, n: nat)
    requires n <= |usage|
    ensures Total(MarkBilled(usage, ids), locked, ws, n) == Total(usage, locked, ws, n)
  {
    if n > 0 { TotalIgnoresMarks(usage, ids, locked, ws, n - 1); }
  }

  lemma QueriedIsOpen(b: Books, locked: set<nat>, groups: seq<string>)
    requires forall i :: i in locked ==> IsUnbilled(b, i, groups)
    requires (forall ws :: ws in groups ==> ws in b.accounts) && Distinct(groups)
    ensures IsOpen(b, Queried(b, locked, groups))
  {
  }

  lemma SameUsageStaysOpen(b: Books, r: Books, batch: Batch)
    requires IsOpen(b, batch) && r.usage == b.usage && r.accounts.Keys == b.accounts.Keys
    ensures IsOpen(r, batch)
  {
    forall ws | ws in batch.groups ensures IsRowOf(r, batch, ws) {
      assert IsRowOf(b, batch, ws);
    }
  }

  /** New usage does not disturb an open batch. */
  lemma RecordingKeepsOpen(b: Books, u: Usage, batch: Batch)
    requires IsOpen(b, batch)
    ensures IsOpen(b.(usage := b.usage + [u]), batch)
  {
    var r := b.(usage := b.usage + [u]);
    forall ws | ws in batch.groups ensures IsRowOf(r, batch, ws) {
      assert IsRowOf(b, batch, ws);
      TotalIgnoresNew(b.usage, u, batch.locked, ws, |b.usage|);
      assert |b.usage| !in batch.locked;
    }
  }

  /** Nor does the commit of another batch, which has other events. */
  lemma CommitKeepsOpen(b: Books, committed: Batch, at: int, batch: Batch)
    requires IsOpen(b, committed) && IsOpen(b, batch) && committed.locked !! batch.locked
    ensures IsOpen(Aggregated(b, committed, at), batch)
  {
    var r := Aggregated(b, committed, at);
    forall ws | ws in batch.groups ensures IsRowOf(r, batch, ws) {
      assert IsRowOf(b, batch, ws);
      TotalIgnoresMarks(b.usage, committed.locked, batch.locked, ws, |b.usage|);
    }
  }

  // ---- Money ----

  lemma GroupKeepsBalanced(opening: map<string, int>, b: Books, workspace: string, row: Row, at: int)
    requires Balanced(opening, b) && workspace in b.accounts
    ensures Balanced(opening, BillGroup(b, workspace, row, at))
  {
    var consumed := ConsumeFree(b, workspace, FreeConsumed(row.invocations, row.freeUsed));
    SameMoney(opening, b, consumed);
    if Fee(Billable(row.invocations, row.freeUsed)) > 0 {
      var cost := Cost(Billable(row.invocations, row.freeUsed));
      PostAndSuspendKeepsBalanced(opening, consumed, UsagePosting(workspace, cost), at);
    }
  }

  lemma {:induction false} AggregationKeepsBalanced(opening: map<string, int>, b: Books, rows: map<string, Row>,
                                                   groups: seq<string>, at: int)
    requires Balanced(opening, b) && AllPresent(b, rows, groups)
    ensures Balanced(opening, BillGroups(b, rows, groups, at))
    decreases |groups|
  {
    if groups != [] {
      var init, last := groups[..|groups| - 1], groups[|groups| - 1];
      AggregationKeepsBalanced(opening, b, rows, init, at);
      GroupKeepsBalanced(opening, BillGroups(b, rows, init, at), last, rows[last], at);
    }
  }
}
