/** The tables that billing works on, the credit ledger, and the Stripe webhooks that post to it
    (crates/api/src/billing.rs:384-452, 635-869). Each handler is one transaction. */
module Ledger {
  import opened Prelude

  /** 1 cent = 10,000 micro-credits. */
  const MICROCREDITS_PER_CENT: int := 10_000

  datatype Kind = MetalMonthly | UsageLiquid | TopUp | Refund

  /** What is asked of the ledger; `service` names the service that a Metal charge is for. */
  datatype Posting = Posting(workspace: string, amount: int, kind: Kind, reference: string, session: Option<string>,
                             service: Option<string>)

  datatype Entry = Entry(posting: Posting, balanceAfter: int, at: int)

  datatype Account = Account(balance: int, freeUsed: int, deleted: bool)

  /** `active` stands for the status being `running` or `provisioning`; `price` is in cents. */
  datatype Service = Service(workspace: string, price: Option<nat>, deployedAt: int, cycleStart: int, active: bool,
                             deleted: bool)

  /** A usage event of a Liquid service. */
  datatype Usage = Usage(workspace: string, quantity: int, billed: bool)

  /** Outbox rows. `Unsuspend` stands for the provision events of `enqueue_unsuspend`. */
  datatype Notice = Suspend(workspace: string) | Unsuspend(workspace: string)

  datatype Books = Books(accounts: map<string, Account>, customers: map<string, string>,
                         services: map<string, Service>, usage: seq<Usage>, ledger: seq<Entry>, notices: seq<Notice>)

  /** Changes a balance and appends the ledger row that says so. */
  function Post(b: Books, p: Posting, at: int): Books
    requires p.workspace in b.accounts
  {
    var balance := b.accounts[p.workspace].balance + p.amount;
    b.(accounts := b.accounts[p.workspace := b.accounts[p.workspace].(balance := balance)],
       ledger := b.ledger + [Entry(p, balance, at)])
  }

  predicate HasActive(b: Books, workspace: string) {
    exists id :: id in b.services && b.services[id].workspace == workspace && b.services[id].active
              && !b.services[id].deleted
  }

  /** `insert_suspend_outbox`. */
  function QueueSuspend(b: Books, workspace: string): Books {
    if HasActive(b, workspace) then b.(notices := b.notices + [Suspend(workspace)]) else b
  }

  /** Posts a debit, and queues a suspension when it leaves nothing. */
  function PostAndSuspend(b: Books, p: Posting, at: int): Books
    requires p.workspace in b.accounts
  {
    var posted := Post(b, p, at);
    if posted.accounts[p.workspace].balance <= 0 then QueueSuspend(posted, p.workspace) else posted
  }

  // ---- Stripe webhooks ----

  datatype Outcome = Applied | Duplicate | Ignored | Rejected

  predicate Known(b: Books, customer: string) {
    customer in b.customers && b.customers[customer] in b.accounts && !b.accounts[b.customers[customer]].deleted
  }

  predicate HasSession(ledger: seq<Entry>, session: string) {
    exists k :: 0 <= k < |ledger| && ledger[k].posting.session == Some(session)
  }

  function TopUpPosting(workspace: string, cents: int, session: string, intent: string): Posting {
    Posting(workspace, cents * MICROCREDITS_PER_CENT, TopUp, intent, Some(session), None)
  }

  /** A completed checkout. With an unknown customer no row is inserted and the balance update then fails. */
  function Checkout(b: Books, customer: string, session: string, cents: int, intent: string, at: int): (Books, Outcome)
  {
    if !Known(b, customer) then (b, Rejected)
    else if HasSession(b.ledger, session) then (b, Duplicate)
    else
      var workspace := b.customers[customer];
      var posted := Post(b, TopUpPosting(workspace, cents, session, intent), at);
      (if posted.accounts[workspace].balance > 0 then posted.(notices := posted.notices + [Unsuspend(workspace)])
       else posted, Applied)
  }

  function Refunded(b: Books, customer: Option<string>, cents: int, charge: string, at: int): (Books, Outcome) {
    if cents == 0 then (b, Ignored)
    else if customer.None? || !Known(b, customer.value) then (b, Rejected)
    else
      var p := Posting(b.customers[customer.value], -(cents * MICROCREDITS_PER_CENT), Refund, charge, None, None);
      (PostAndSuspend(b, p, at), Applied)
  }

  /** The top-ups credited for a payment intent. */
  function TopUpsFor(ledger: seq<Entry>, intent: string): seq<Posting> {
    if ledger == [] then []
    else
      var p := ledger[|ledger| - 1].posting;
      TopUpsFor(ledger[..|ledger| - 1], intent) + if p.kind == TopUp && p.reference == intent then [p] else []
  }

  function Reversal(p: Posting, intent: string): Posting {
    Posting(p.workspace, -p.amount, Refund, intent, None, None)
  }

  /** What a failed payment finds in the ledger, in a query before its transaction; two rows are an error. */
  datatype Lookup = NoTopUp | Ambiguous | Found(topUp: Posting)

  function LookUp(b: Books, intent: string): Lookup {
    var topUps := TopUpsFor(b.ledger, intent);
    if topUps == [] then NoTopUp else if |topUps| > 1 then Ambiguous else Found(topUps[0])
  }

  /** The rest of a failed payment: the transaction reverses the top-up that was found. */
  function Reverse(b: Books, found: Lookup, intent: string, at: int): (Books, Outcome) {
    match found
    case NoTopUp => (b, Ignored)
    case Ambiguous => (b, Rejected)
    case Found(p) =>
      if p.workspace !in b.accounts then (b, Rejected)
      else (PostAndSuspend(b, Reversal(p, intent), at), Applied)
  }

  /** What one webhook does to money and services: the payer's balance moves by `amount`, no other account changes, and
      the notices that follow depend on the balance it leaves. */
  predicate Moves(b: Books, after: Books, workspace: string, amount: int, notices: seq<Notice>)
    requires workspace in b.accounts
  {
    && after.accounts.Keys == b.accounts.Keys
    && after.accounts[workspace] == b.accounts[workspace].(balance := b.accounts[workspace].balance + amount)
    && (forall ws :: ws in b.accounts && ws != workspace ==> after.accounts[ws] == b.accounts[ws])
    && after.notices == b.notices + notices && after.services == b.services && after.usage == b.usage
  }

  /** A debit queues a suspension exactly when it leaves nothing and a service of the workspace, not deleted, is running
      or being provisioned. */
  lemma SuspendsIff(b: Books, p: Posting, at: int)
    requires p.workspace in b.accounts
    ensures var left := b.accounts[p.workspace].balance + p.amount;
            PostAndSuspend(b, p, at).notices
            == if left <= 0 && exists id :: id in b.services && b.services[id].workspace == p.workspace
                                            && b.services[id].active && !b.services[id].deleted
               then b.notices + [Suspend(p.workspace)] else b.notices
    ensures PostAndSuspend(b, p, at).ledger == b.ledger + [Entry(p, b.accounts[p.workspace].balance + p.amount, at)]
  {
    var posted := Post(b, p, at);
    assert posted.services == b.services;
    assert HasActive(posted, p.workspace)
      <==> exists id :: id in b.services && b.services[id].workspace == p.workspace && b.services[id].active
                        && !b.services[id].deleted;
  }

  /** A top-up is credited exactly when its customer has a live workspace and its session is new; services are resumed
      exactly when the balance it leaves is positive. */
  lemma CheckoutCredits(b: Books, customer: string, session: string, cents: int, intent: string, at: int)
    ensures var (after, outcome) := Checkout(b, customer, session, cents, intent, at);
            var live := customer in b.customers && b.customers[customer] in b.accounts
                        && !b.accounts[b.customers[customer]].deleted;
            var unseen := forall e :: e in b.ledger ==> e.posting.session != Some(session);
            && outcome == (if !live then Rejected else if !unseen then Duplicate else Applied)
            && (outcome != Applied ==> after == b)
            && (outcome == Applied ==>
                  var ws := b.customers[customer];
                  var balance := b.accounts[ws].balance + cents * 10_000;
                  && Moves(b, after, ws, cents * 10_000, if balance > 0 then [Unsuspend(ws)] else [])
                  && after.ledger == b.ledger + [Entry(Posting(ws, cents * 10_000, TopUp, intent, Some(session), None),
                                                       balance, at)])
  {
    assert HasSession(b.ledger, session) <==> exists e :: e in b.ledger && e.posting.session == Some(session);
  }

  /** A refund takes back what it says exactly when it says something and its customer has a live workspace; a
      suspension is queued exactly when nothing is left and something is running. */
  lemma RefundDebits(b: Books, customer: Option<string>, cents: int, charge: string, at: int)
    ensures var (after, outcome) := Refunded(b, customer, cents, charge, at);
            && outcome == (if cents == 0 then Ignored
                           else if customer.Some? && Known(b, customer.value) then Applied else Rejected)
            && (outcome != Applied ==> after == b)
            && (outcome == Applied ==>
                  var ws := b.customers[customer.value];
                  var balance := b.accounts[ws].balance - cents * 10_000;
                  && Moves(b, after, ws, -cents * 10_000,
                           if balance <= 0 && HasActive(b, ws) then [Suspend(ws)] else [])
                  && after.ledger == b.ledger + [Entry(Posting(ws, -cents * 10_000, Refund, charge, None, None),
                                                       balance, at)])
  {
    if Refunded(b, customer, cents, charge, at).1 == Applied {
      var ws := b.customers[customer.value];
      var p := Posting(ws, -(cents * MICROCREDITS_PER_CENT), Refund, charge, None, None);
      assert HasActive(Post(b, p, at), ws) <==> HasActive(b, ws);
      assert b.notices + [] == b.notices;
    }
  }

  // ---- The ledger adds up ----

  function SumFor(ledger: seq<Entry>, workspace: string): int {
    if ledger == [] then 0
    else
      var p := ledger[|ledger| - 1].posting;
      SumFor(ledger[..|ledger| - 1], workspace) + if p.workspace == workspace then p.amount else 0
  }

  lemma SumSnoc(ledger: seq<Entry>, e: Entry, workspace: string)
    ensures SumFor(ledger + [e], workspace)
         == SumFor(ledger, workspace) + if e.posting.workspace == workspace then e.posting.amount else 0
  {
    assert (ledger + [e])[..|ledger + [e]| - 1] == ledger;
  }

  /** Every balance is the opening balance plus the workspace's ledger. */
  ghost predicate BalancesAddUp(opening: map<string, int>, b: Books) {
    && b.accounts.Keys == opening.Keys
    && forall ws :: ws in b.accounts ==> b.accounts[ws].balance == opening[ws] + SumFor(b.ledger, ws)
  }

  /** Every ledger row records the balance it left. */
  ghost predicate RowsRecordBalances(opening: map<string, int>, ledger: seq<Entry>) {
    forall k: nat :: k < |ledger| ==> RowRecordsBalance(opening, ledger, k)
  }

  ghost predicate RowRecordsBalance(opening: map<string, int>, ledger: seq<Entry>, k: nat)
    requires k < |ledger|
  {
    var ws := ledger[k].posting.workspace;
    ws in opening && ledger[k].balanceAfter == opening[ws] + SumFor(ledger[..k + 1], ws)
  }

  ghost predicate Balanced(opening: map<string, int>, b: Books) {
    BalancesAddUp(opening, b) && RowsRecordBalances(opening, b.ledger)
  }

  lemma PostAddsUpFor(opening: map<string, int>, b: Books, p: Posting, at: int, ws: string)
    requires BalancesAddUp(opening, b) && p.workspace in b.accounts && ws in b.accounts
    ensures Post(b, p, at).accounts[ws].balance == opening[ws] + SumFor(Post(b, p, at).ledger, ws)
  {
    SumSnoc(b.ledger, Entry(p, b.accounts[p.workspace].balance + p.amount, at), ws);
  }

  lemma PostAddsUp(opening: map<string, int>, b: Books, p: Posting, at: int)
    requires BalancesAddUp(opening, b) && p.workspace in b.accounts
    ensures BalancesAddUp(opening, Post(b, p, at))
  {
    forall ws | ws in b.accounts
      ensures Post(b, p, at).accounts[ws].balance == opening[ws] + SumFor(Post(b, p, at).ledger, ws)
    {
      PostAddsUpFor(opening, b, p, at, ws);
    }
  }

  lemma PostRecords(opening: map<string, int>, b: Books, p: Posting, at: int)
    requires Balanced(opening, b) && p.workspace in b.accounts
    ensures RowsRecordBalances(opening, Post(b, p, at).ledger)
  {
    var ledger := Post(b, p, at).ledger;
    PostAddsUp(opening, b, p, at);
    forall k: nat | k < |ledger| ensures RowRecordsBalance(opening, ledger, k) {
      if k < |b.ledger| {
        assert RowRecordsBalance(opening, b.ledger, k);
        assert ledger[..k + 1] == b.ledger[..k + 1];
      } else {
        assert ledger[..k + 1] == ledger;
      }
    }
  }

  lemma PostKeepsBalanced(opening: map<string, int>, b: Books, p: Posting, at: int)
    requires Balanced(opening, b) && p.workspace in b.accounts
    ensures Balanced(opening, Post(b, p, at))
  {
    PostAddsUp(opening, b, p, at);
    PostRecords(opening, b, p, at);
  }

  /** `Balanced` is about accounts' balances and the ledger alone. */
  lemma SameMoney(opening: map<string, int>, b: Books, c: Books)
    requires Balanced(opening, b) && c.ledger == b.ledger && c.accounts.Keys == b.accounts.Keys
    requires forall ws :: ws in b.accounts ==> c.accounts[ws].balance == b.accounts[ws].balance
    ensures Balanced(opening, c)
  {
  }

  lemma PostAndSuspendKeepsBalanced(opening: map<string, int>, b: Books, p: Posting, at: int)
    requires Balanced(opening, b) && p.workspace in b.accounts
    ensures Balanced(opening, PostAndSuspend(b, p, at))
  {
    PostKeepsBalanced(opening, b, p, at);
    SameMoney(opening, Post(b, p, at), PostAndSuspend(b, p, at));
  }

  // ---- Sessions ----

  ghost predicate SessionsUnique(ledger: seq<Entry>) {
    forall i, j :: 0 <= i < j < |ledger| && ledger[i].posting.session.Some?
      ==> ledger[i].posting.session != ledger[j].posting.session
  }

  /** The unique index is kept, and a session delivered once is never credited again: whatever the repeated event
      says, it changes nothing. */
  lemma CheckoutIsIdempotent(b: Books, customer: string, session: string, cents: int, intent: string, at: int,
                             customer': string, cents': int, intent': string, at': int)
    requires SessionsUnique(b.ledger)
    ensures var (after, outcome) := Checkout(b, customer, session, cents, intent, at);
            && SessionsUnique(after.ledger)
            && (outcome == Applied ==> HasSession(after.ledger, session))
            && (outcome == Applied ==> Checkout(after, customer', session, cents', intent', at').0 == after)
  {
    var (after, outcome) := Checkout(b, customer, session, cents, intent, at);
    if outcome == Applied {
      assert after.ledger[|b.ledger|].posting.session == Some(session);
    }
  }

  lemma TopUpsSnoc(ledger: seq<Entry>, e: Entry, intent: string)
    ensures var p := e.posting;
            TopUpsFor(ledger + [e], intent)
            == TopUpsFor(ledger, intent) + if p.kind == TopUp && p.reference == intent then [p] else []
  {
    assert (ledger + [e])[..|ledger + [e]| - 1] == ledger;
  }

  lemma PostsCancel(b: Books, p: Posting, q: Posting, at: int, later: int, notices: seq<Notice>)
    requires p.workspace in b.accounts && q.workspace == p.workspace && q.amount == -p.amount
    ensures PostAndSuspend(Post(b, p, at).(notices := notices), q, later).accounts == b.accounts
  {
  }

  lemma CreditedTopUps(b: Books, customer: string, session: string, cents: int, intent: string, at: int)
    requires Checkout(b, customer, session, cents, intent, at).1 == Applied
    ensures var p := TopUpPosting(b.customers[customer], cents, session, intent);
            var credited := Checkout(b, customer, session, cents, intent, at).0;
            && p.workspace in b.accounts && credited == Post(b, p, at).(notices := credited.notices)
            && TopUpsFor(credited.ledger, intent) == TopUpsFor(b.ledger, intent) + [p]
  {
    var p := TopUpPosting(b.customers[customer], cents, session, intent);
    TopUpsSnoc(b.ledger, Entry(p, b.accounts[p.workspace].balance + p.amount, at), intent);
  }

  lemma {:induction false} TopUpsStay(before: seq<Entry>, after: seq<Entry>, intent: string)
    requires before <= after
    ensures TopUpsFor(before, intent) <= TopUpsFor(after, intent)
    decreases |after|
  {
    if before == after {
    } else {
      TopUpsStay(before, after[..|after| - 1], intent);
    }
  }

  lemma ReversalMoves(b: Books, p: Posting, intent: string, at: int)
    requires p.workspace in b.accounts
    ensures var (after, outcome) := Reverse(b, Found(p), intent, at);
            && outcome == Applied
            && after.ledger == b.ledger + [Entry(Posting(p.workspace, -p.amount, Refund, intent, None, None),
                                                 b.accounts[p.workspace].balance - p.amount, at)]
            && Moves(b, after, p.workspace, -p.amount,
                     if after.accounts[p.workspace].balance <= 0 && HasActive(b, p.workspace)
                     then [Suspend(p.workspace)] else [])
  {
    assert HasActive(Post(b, Reversal(p, intent), at), p.workspace) <==> HasActive(b, p.workspace);
    assert b.notices + [] == b.notices;
  }

  /** A failed payment of which the ledger knows nothing is ignored, and of one whose workspace is gone nothing can be
      taken back. */
  lemma ReversesNothing(b: Books, looked: Books, intent: string, at: int)
    ensures (forall e :: e in looked.ledger ==> e.posting.kind != TopUp || e.posting.reference != intent)
            ==> Reverse(b, LookUp(looked, intent), intent, at) == (b, Ignored)
    ensures forall p :: LookUp(looked, intent) == Found(p) && p.workspace !in b.accounts
                        ==> Reverse(b, Found(p), intent, at) == (b, Rejected)
  {
    if forall e :: e in looked.ledger ==> e.posting.kind != TopUp || e.posting.reference != intent {
      NoneToFind(looked.ledger, intent);
    }
  }

  lemma {:induction false} NoneToFind(ledger: seq<Entry>, intent: string)
    requires forall e :: e in ledger ==> e.posting.kind != TopUp || e.posting.reference != intent
    ensures TopUpsFor(ledger, intent) == []
    decreases |ledger|
  {
    if ledger != [] { NoneToFind(ledger[..|ledger| - 1], intent); }
  }

  lemma LooksUp(looked: Books, before: seq<Posting>, p: Posting, intent: string)
    requires before + [p] <= TopUpsFor(looked.ledger, intent)
    ensures |TopUpsFor(looked.ledger, intent)| == 1 ==> before == [] && LookUp(looked, intent) == Found(p)
    ensures |TopUpsFor(looked.ledger, intent)| != 1 ==> LookUp(looked, intent) == Ambiguous
    ensures TopUpsFor(looked.ledger, intent) == before + [p]
            ==> (|TopUpsFor(looked.ledger, intent)| == 1 <==> before == [])
  {
  }

  /** A failed payment takes back the top-up credited for it, whatever happens between the top-up and the look into the
      ledger, and between that and the transaction: the balance moves by exactly the amount credited. It does so if
      and only if the look finds no other top-up for the intent; otherwise nothing is taken back. */
  lemma ReversalUndoesTopUp(b: Books, customer: string, session: string, cents: int, intent: string, at: int,
                            looked: Books, c: Books, later: int)
    requires Checkout(b, customer, session, cents, intent, at).1 == Applied
    requires Checkout(b, customer, session, cents, intent, at).0.ledger <= looked.ledger
    requires b.customers[customer] in c.accounts
    ensures var ws := b.customers[customer];
            var credited := Checkout(b, customer, session, cents, intent, at).0;
            var (after, outcome) := Reverse(c, LookUp(looked, intent), intent, later);
            && credited.accounts[ws].balance == b.accounts[ws].balance + cents * MICROCREDITS_PER_CENT
            && outcome == (if |TopUpsFor(looked.ledger, intent)| == 1 then Applied else Rejected)
            && (outcome == Applied ==> Moves(c, after, ws, -(cents * MICROCREDITS_PER_CENT),
                                             if after.accounts[ws].balance <= 0 && HasActive(c, ws)
                                             then [Suspend(ws)] else []))
            && (outcome != Applied ==> after == c)
            && (looked == credited ==> (outcome == Applied <==> TopUpsFor(b.ledger, intent) == []))
            && (c == credited && outcome == Applied ==> after.accounts == b.accounts)
  {
    var p := TopUpPosting(b.customers[customer], cents, session, intent);
    var credited := Checkout(b, customer, session, cents, intent, at).0;
    CreditedTopUps(b, customer, session, cents, intent, at);
    TopUpsStay(credited.ledger, looked.ledger, intent);
    ReversalMoves(c, p, intent, later);
    LooksUp(looked, TopUpsFor(b.ledger, intent), p, intent);
    PostsCancel(b, p, Reversal(p, intent), at, later, credited.notices);
  }
}
