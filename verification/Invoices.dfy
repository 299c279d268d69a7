/** Monthly invoices of one workspace (crates/api/src/billing.rs:1062-1263): the pointer that walks over 30-day windows,
    the sums of each window and their rounding to cents, and what several generators and failures make of them. No
    lock or transaction spans an attempt: the pointer is read first, and what follows goes by what was read. */
module Invoices {
  import opened Prelude
  import opened Ledger
  import opened MetalBilling

  /** `charged` and `rows` say what the cents were computed from: the sum in micro-credits, and the ledger's rows. */
  datatype Invoice = Invoice(start: int, end: int, cents: int, charged: nat, rows: set<nat>)

  /** `stripe` are the invoices finalised at Stripe, `local` the rows of the invoices table, and `reading` the pointers
      that generators have read for the attempt they are at. */
  datatype State = State(ledger: seq<Entry>, createdAt: int, lastInvoice: Option<int>, stripe: seq<Invoice>,
                         local: seq<Invoice>, reading: map<nat, int>)

  /** Where an attempt ends: before Stripe finalises the invoice, after that but before the local row, before the
      pointer's update, or not at all. */
  datatype Fate = StripeFails | InsertFails | PointerFails | Succeeds

  /** A posting is stamped with the start of its transaction, `entry.at`, and can be seen from `now` on. */
  datatype Event =
    | Posted(entry: Entry, now: int)
    | Read(worker: nat, now: int)
    | Finish(worker: nat, now: int, fate: Fate)

  function Pointer(s: State): int { if s.lastInvoice.Some? then s.lastInvoice.value else s.createdAt }

  function Abs(n: int): nat { if n < 0 then -n else n }

  /** The charges of one kind in the half-open window. */
  function Sum(ledger: seq<Entry>, ws: string, kind: Kind, start: int, end: int): nat {
    if ledger == [] then 0
    else
      var e := ledger[|ledger| - 1];
      Sum(ledger[..|ledger| - 1], ws, kind, start, end)
      + if e.posting.workspace == ws && e.posting.kind == kind && start <= e.at < end then Abs(e.posting.amount) else 0
  }

  function Charges(ledger: seq<Entry>, ws: string, start: int, end: int): nat {
    Sum(ledger, ws, MetalMonthly, start, end) + Sum(ledger, ws, UsageLiquid, start, end)
  }

  function Cents(ledger: seq<Entry>, ws: string, start: int, end: int): int {
    Sum(ledger, ws, MetalMonthly, start, end) / MICROCREDITS_PER_CENT
    + Sum(ledger, ws, UsageLiquid, start, end) / MICROCREDITS_PER_CENT
  }

  /** An entry that the sums look at. */
  predicate Counts(e: Entry, ws: string) {
    e.posting.workspace == ws && e.posting.kind in {MetalMonthly, UsageLiquid} && e.posting.amount != 0
  }

  predicate InWindow(e: Entry, ws: string, start: int, end: int) { Counts(e, ws) && start <= e.at < end }

  function Rows(ledger: seq<Entry>, ws: string, start: int, end: int): set<nat> {
    set i: nat | i < |ledger| && InWindow(ledger[i], ws, start, end)
  }

  function InvoiceFor(ledger: seq<Entry>, ws: string, start: int): Invoice {
    var end := start + MONTH;
    Invoice(start, end, Cents(ledger, ws, start, end), Charges(ledger, ws, start, end), Rows(ledger, ws, start, end))
  }

  function Due(s: State, now: int): Option<int> {
    if Pointer(s) + MONTH <= now then Some(Pointer(s)) else None
  }

  /** The rest of an attempt that read `start`. */
  function Attempted(s: State, ws: string, start: int, fate: Fate): State {
    var end := start + MONTH;
    if Charges(s.ledger, ws, start, end) == 0 then
      if fate == Succeeds then s.(lastInvoice := Some(end)) else s
    else if fate == StripeFails then s
    else
      var invoice := InvoiceFor(s.ledger, ws, start);
      var finalised := s.(stripe := s.stripe + [invoice]);
      if fate == InsertFails then finalised
      else
        var inserted := finalised.(local := s.local + [invoice]);
        if fate == PointerFails then inserted else inserted.(lastInvoice := Some(end))
  }

  function Step(s: State, ws: string, e: Event): State {
    match e
    case Posted(entry, _) => s.(ledger := s.ledger + [entry])
    case Read(worker, now) =>
      var due := Due(s, now);
      if due.None? then s else s.(reading := s.reading[worker := due.value])
    case Finish(worker, now, fate) =>
      if worker !in s.reading then s
      else Attempted(s, ws, s.reading[worker], fate).(reading := s.reading - {worker})
  }

  class Invoicer {
    var ledger: seq<Entry>
    var createdAt: int
    var lastInvoice: Option<int>
    var stripe: seq<Invoice>
    var local: seq<Invoice>
    ghost var reading: map<nat, int>

    ghost function Current(): State
      reads this
    {
      State(ledger, createdAt, lastInvoice, stripe, local, reading)
    }

    /** One attempt after the read of the pointer: the rest of the step. Only success moves the pointer, to the end of
        the window that was read; any other outcome leaves the window to be attempted again, although Stripe may have
        its invoice already. A local row is never without its invoice at Stripe. */
    method GenerateWorkspaceInvoice(ws: string, start: int, fate: Fate)
      modifies this`lastInvoice, this`stripe, this`local
      ensures Current() == Attempted(old(Current()), ws, start, fate)
      ensures lastInvoice == if fate == Succeeds then Some(start + MONTH) else old(lastInvoice)
      ensures |stripe| - |old(stripe)| == if Charges(ledger, ws, start, start + MONTH) > 0 && fate != StripeFails
                                          then 1 else 0
      ensures fate.InsertFails? || local[|old(local)|..] == stripe[|old(stripe)|..]
      ensures fate.InsertFails? ==> local == old(local)
    {
      var end := start + MONTH;
      var metal := Sum(ledger, ws, MetalMonthly, start, end);
      var liquid := Sum(ledger, ws, UsageLiquid, start, end);
      if metal + liquid == 0 {
        if fate == Succeeds { lastInvoice := Some(end); }
        return;
      }
      var cents := metal / MICROCREDITS_PER_CENT + liquid / MICROCREDITS_PER_CENT;
      if fate == StripeFails { return; }
      var invoice := Invoice(start, end, cents, metal + liquid, Rows(ledger, ws, start, end));
      stripe := stripe + [invoice];
      if fate == InsertFails { return; }
      local := local + [invoice];
      if fate == PointerFails { return; }
      lastInvoice := Some(end);
    }
  }

  function After(s: State, ws: string, events: seq<Event>): State {
    if events == [] then s else Step(After(s, ws, events[..|events| - 1]), ws, events[|events| - 1])
  }

  predicate Monotone(events: seq<Event>) {
    forall i, j :: 0 <= i < j < |events| ==> events[i].now <= events[j].now
  }

  // ---- Windows tile time ----

  function WindowStart(createdAt: int, n: int): int { createdAt + n * MONTH }

  /** Every instant from the creation on lies in exactly one window. */
  lemma WindowsTileTime(createdAt: int, t: int, n: int)
    requires createdAt <= t
    ensures WindowStart(createdAt, n) <= t < WindowStart(createdAt, n + 1) <==> n == (t - createdAt) / MONTH
  {
    var q, r := (t - createdAt) / MONTH, (t - createdAt) % MONTH;
    assert t == createdAt + q * MONTH + r;
    if n < q { assert (n + 1) * MONTH <= q * MONTH; }
    if n > q { assert (q + 1) * MONTH <= n * MONTH; }
  }

  // ---- The invoices are those of the windows passed ----

  function WindowInvoice(ledger: seq<Entry>, ws: string, createdAt: int, n: nat): seq<Invoice> {
    var start, end := WindowStart(createdAt, n), WindowStart(createdAt, n + 1);
    if Charges(ledger, ws, start, end) == 0 then [] else [InvoiceFor(ledger, ws, start)]
  }

  /** One invoice for each of the first `n` windows with a charge in it. */
  function WindowInvoices(ledger: seq<Entry>, ws: string, createdAt: int, n: nat): seq<Invoice> {
    if n == 0 then [] else WindowInvoices(ledger, ws, createdAt, n - 1) + WindowInvoice(ledger, ws, createdAt, n - 1)
  }

  lemma WindowsSnoc(ledger: seq<Entry>, ws: string, createdAt: int, n: nat)
    ensures WindowInvoices(ledger, ws, createdAt, n + 1)
         == WindowInvoices(ledger, ws, createdAt, n) + WindowInvoice(ledger, ws, createdAt, n)
  {
  }

  lemma SumIgnores(ledger: seq<Entry>, e: Entry, ws: string, kind: Kind, start: int, end: int)
    requires !InWindow(e, ws, start, end) && kind in {MetalMonthly, UsageLiquid}
    ensures Sum(ledger + [e], ws, kind, start, end) == Sum(ledger, ws, kind, start, end)
  {
    assert (ledger + [e])[..|ledger + [e]| - 1] == ledger;
  }

  /** A posting outside the window changes nothing about its invoice. */
  lemma InvoiceIgnores(ledger: seq<Entry>, e: Entry, ws: string, start: int)
    requires !InWindow(e, ws, start, start + MONTH)
    ensures InvoiceFor(ledger + [e], ws, start) == InvoiceFor(ledger, ws, start)
  {
    SumIgnores(ledger, e, ws, MetalMonthly, start, start + MONTH);
    SumIgnores(ledger, e, ws, UsageLiquid, start, start + MONTH);
    assert Rows(ledger + [e], ws, start, start + MONTH) == Rows(ledger, ws, start, start + MONTH);
  }

  lemma {:induction false} SumIffRows(ledger: seq<Entry>, ws: string, start: int, end: int)
    ensures Charges(ledger, ws, start, end) == 0 <==> Rows(ledger, ws, start, end) == {}
    decreases |ledger|
  {
    if ledger != [] {
      var n := |ledger| - 1;
      SumIffRows(ledger[..n], ws, start, end);
      RowsSnoc(ledger[..n], ledger[n], ws, start, end);
      assert ledger == ledger[..n] + [ledger[n]];
    }
  }

  lemma RowsSnoc(ledger: seq<Entry>, e: Entry, ws: string, start: int, end: int)
    ensures Rows(ledger + [e], ws, start, end)
         == Rows(ledger, ws, start, end) + if InWindow(e, ws, start, end) then {|ledger|} else {}
  {
  }

  lemma NextWindow(createdAt: int, n: int)
    ensures WindowStart(createdAt, n + 1) == WindowStart(createdAt, n) + MONTH
  {
  }

  /** Neither do postings outside of all of the first `n` windows. */
  lemma {:induction false} WindowsIgnore(ledger: seq<Entry>, e: Entry, ws: string, createdAt: int, n: nat)
    requires !InWindow(e, ws, createdAt, WindowStart(createdAt, n))
    ensures WindowInvoices(ledger + [e], ws, createdAt, n) == WindowInvoices(ledger, ws, createdAt, n)
    decreases n
  {
    if n > 0 {
      NextWindow(createdAt, n - 1);
      WindowsMoveOn(createdAt, n - 1);
      WindowsIgnore(ledger, e, ws, createdAt, n - 1);
      InvoiceIgnores(ledger, e, ws, WindowStart(createdAt, n - 1));
    }
  }

  lemma {:induction false} WindowsHaveRowsOf(ledger: seq<Entry>, ws: string, createdAt: int, n: nat, i: Invoice)
    requires i in WindowInvoices(ledger, ws, createdAt, n)
    ensures forall r :: r in i.rows ==> r < |ledger|
    decreases n
  {
    if i !in WindowInvoice(ledger, ws, createdAt, n - 1) { WindowsHaveRowsOf(ledger, ws, createdAt, n - 1, i); }
  }

  lemma {:induction false} WindowsHaveEach(ledger: seq<Entry>, ws: string, createdAt: int, k: nat, n: nat, i: Invoice)
    requires k < n && i in WindowInvoice(ledger, ws, createdAt, k)
    ensures i in WindowInvoices(ledger, ws, createdAt, n)
    decreases n
  {
    if k < n - 1 { WindowsHaveEach(ledger, ws, createdAt, k, n - 1, i); }
  }

  /** The window of a posting, and the invoice that the posting is a part of. */
  lemma WindowOf(ledger: seq<Entry>, e: Entry, ws: string, createdAt: int, t: int) returns (k: nat)
    requires IsBoundary(createdAt, t) && InWindow(e, ws, createdAt, t)
    ensures k < Index(createdAt, t) && WindowStart(createdAt, k + 1) <= t
    ensures InWindow(e, ws, WindowStart(createdAt, k), WindowStart(createdAt, k + 1))
    ensures WindowInvoice(ledger + [e], ws, createdAt, k) == [InvoiceFor(ledger + [e], ws, WindowStart(createdAt, k))]
    ensures |ledger| in InvoiceFor(ledger + [e], ws, WindowStart(createdAt, k)).rows
  {
    k := (e.at - createdAt) / MONTH;
    WindowsTileTime(createdAt, e.at, k);
    NextWindow(createdAt, k);
    RowsSnoc(ledger, e, ws, WindowStart(createdAt, k), WindowStart(createdAt, k + 1));
    SumIffRows(ledger + [e], ws, WindowStart(createdAt, k), WindowStart(createdAt, k + 1));
  }

  /** A posting into one of the windows is not in the invoices there were. */
  lemma WindowsNotice(ledger: seq<Entry>, e: Entry, ws: string, createdAt: int, t: int)
    requires IsBoundary(createdAt, t) && InWindow(e, ws, createdAt, t)
    ensures WindowInvoices(ledger + [e], ws, createdAt, Index(createdAt, t))
         != WindowInvoices(ledger, ws, createdAt, Index(createdAt, t))
  {
    var n := Index(createdAt, t);
    var k := WindowOf(ledger, e, ws, createdAt, t);
    var i := InvoiceFor(ledger + [e], ws, WindowStart(createdAt, k));
    WindowsHaveEach(ledger + [e], ws, createdAt, k, n, i);
    if i in WindowInvoices(ledger, ws, createdAt, n) { WindowsHaveRowsOf(ledger, ws, createdAt, n, i); }
  }

  // ---- Pointers stand on window boundaries ----

  function Index(createdAt: int, t: int): int { (t - createdAt) / MONTH }

  predicate IsBoundary(createdAt: int, t: int) { createdAt <= t && t == WindowStart(createdAt, Index(createdAt, t)) }

  lemma NextBoundary(createdAt: int, t: int)
    requires IsBoundary(createdAt, t)
    ensures IsBoundary(createdAt, t + MONTH) && Index(createdAt, t + MONTH) == Index(createdAt, t) + 1
  {
  }

  /** The pointer ends a window that has passed, and every attempt is at one that has. */
  ghost predicate Placed(s: State, time: int) {
    && IsBoundary(s.createdAt, Pointer(s)) && Pointer(s) <= time
    && forall w :: w in s.reading ==> IsBoundary(s.createdAt, s.reading[w]) && s.reading[w] + MONTH <= time
  }

  lemma StepKeepsPlaced(s: State, ws: string, e: Event, time: int)
    requires Placed(s, time) && time <= e.now
    ensures Placed(Step(s, ws, e), e.now) && Step(s, ws, e).createdAt == s.createdAt
  {
    if e.Finish? && e.worker in s.reading { NextBoundary(s.createdAt, s.reading[e.worker]); }
  }

  // ---- Every window is invoiced at least once, and nothing else is ----

  predicate Has(s: State, ws: string, k: nat) {
    var due := WindowInvoice(s.ledger, ws, s.createdAt, k);
    due == [] || (due[0] in s.stripe && due[0] in s.local)
  }

  /** Every window that ends by `t` and has a charge in it has its invoice, at Stripe and locally. */
  ghost predicate CoveredTo(s: State, ws: string, t: int) {
    forall k: nat {:trigger Has(s, ws, k)} :: WindowStart(s.createdAt, k + 1) <= t ==> Has(s, ws, k)
  }

  ghost predicate Covered(s: State, ws: string) {
    CoveredTo(s, ws, Pointer(s)) && forall w :: w in s.reading ==> CoveredTo(s, ws, s.reading[w])
  }

  /** The invoice is that of a window that has passed, with what the ledger's first `n` rows had in it. */
  predicate WasDue(ledger: seq<Entry>, ws: string, i: Invoice, n: nat) {
    n <= |ledger| && Charges(ledger[..n], ws, i.start, i.end) > 0 && i == InvoiceFor(ledger[..n], ws, i.start)
  }

  ghost predicate IsDue(s: State, ws: string, i: Invoice, time: int) {
    IsBoundary(s.createdAt, i.start) && i.end <= time && exists n: nat :: WasDue(s.ledger, ws, i, n)
  }

  ghost predicate AllDue(s: State, ws: string, time: int) {
    && (forall i :: i in s.stripe ==> IsDue(s, ws, i, time))
    && (forall i :: i in s.local ==> i in s.stripe)
  }

  lemma DueLater(s: State, r: State, ws: string, i: Invoice, time: int, later: int)
    requires IsDue(s, ws, i, time) && time <= later && s.ledger <= r.ledger && r.createdAt == s.createdAt
    ensures IsDue(r, ws, i, later)
  {
    var n: nat :| WasDue(s.ledger, ws, i, n);
    assert r.ledger[..n] == s.ledger[..n];
    assert WasDue(r.ledger, ws, i, n);
  }

  lemma StepKeepsDue(s: State, ws: string, e: Event, time: int)
    requires AllDue(s, ws, time) && Placed(s, time) && time <= e.now
    ensures AllDue(Step(s, ws, e), ws, e.now)
  {
    var r := Step(s, ws, e);
    forall i | i in r.stripe ensures IsDue(r, ws, i, e.now) {
      if i in s.stripe {
        DueLater(s, r, ws, i, time, e.now);
      } else {
        assert s.ledger[..|s.ledger|] == s.ledger;
        assert WasDue(r.ledger, ws, i, |s.ledger|);
      }
    }
  }

  /** A charge is posted into a window before the pointer, or before what an attempt has read. */
  predicate PostsBehind(s: State, ws: string, e: Event) {
    e.Posted? && (InWindow(e.entry, ws, s.createdAt, Pointer(s))
                  || exists w :: w in s.reading && InWindow(e.entry, ws, s.createdAt, s.reading[w]))
  }

  predicate RowsExist(s: State) { forall i, r :: i in s.stripe && r in i.rows ==> r < |s.ledger| }

  lemma DueHaveRows(s: State, ws: string, time: int)
    requires AllDue(s, ws, time)
    ensures RowsExist(s)
  {
    forall i, r | i in s.stripe && r in i.rows ensures r < |s.ledger| {
      assert IsDue(s, ws, i, time);
      var n: nat :| WasDue(s.ledger, ws, i, n);
    }
  }

  lemma PostKeepsCoveredToIff(s: State, ws: string, entry: Entry, t: int)
    requires CoveredTo(s, ws, t) && RowsExist(s) && IsBoundary(s.createdAt, t)
    ensures CoveredTo(s.(ledger := s.ledger + [entry]), ws, t) <==> !InWindow(entry, ws, s.createdAt, t)
  {
    var r := s.(ledger := s.ledger + [entry]);
    if InWindow(entry, ws, s.createdAt, t) {
      var k := WindowOf(s.ledger, entry, ws, s.createdAt, t);
      assert !Has(r, ws, k);
    } else {
      forall k: nat | WindowStart(s.createdAt, k + 1) <= t ensures Has(r, ws, k) {
        assert Has(s, ws, k);
        NextWindow(s.createdAt, k);
        InvoiceIgnores(s.ledger, entry, ws, WindowStart(s.createdAt, k));
      }
    }
  }

  lemma PostKeepsCoveredIff(s: State, ws: string, entry: Entry, time: int, now: int)
    requires Covered(s, ws) && RowsExist(s) && Placed(s, time)
    ensures Covered(s.(ledger := s.ledger + [entry]), ws) <==> !PostsBehind(s, ws, Posted(entry, now))
  {
    PostKeepsCoveredToIff(s, ws, entry, Pointer(s));
    forall w | w in s.reading
      ensures CoveredTo(s.(ledger := s.ledger + [entry]), ws, s.reading[w])
              <==> !InWindow(entry, ws, s.createdAt, s.reading[w])
    {
      PostKeepsCoveredToIff(s, ws, entry, s.reading[w]);
    }
  }

  /** More invoices do not uncover anything. */
  lemma MoreInvoicesCover(s: State, r: State, ws: string, t: int)
    requires CoveredTo(s, ws, t) && r.ledger == s.ledger && r.createdAt == s.createdAt
    requires s.stripe <= r.stripe && s.local <= r.local
    ensures CoveredTo(r, ws, t)
  {
    forall k: nat | WindowStart(s.createdAt, k + 1) <= t ensures Has(r, ws, k) {
      assert Has(s, ws, k);
    }
  }

  lemma OneWindowMore(s: State, r: State, ws: string, start: int)
    requires IsBoundary(s.createdAt, start) && CoveredTo(s, ws, start) && r == Attempted(s, ws, start, Succeeds)
    ensures CoveredTo(r, ws, start + MONTH)
  {
    var m := Index(s.createdAt, start);
    MoreInvoicesCover(s, r, ws, start);
    forall k: nat | WindowStart(s.createdAt, k + 1) <= start + MONTH ensures Has(r, ws, k) {
      if k != m { assert WindowStart(s.createdAt, k + 1) <= start; }
    }
  }

  lemma AttemptKeepsCovered(s: State, ws: string, start: int, fate: Fate)
    requires Covered(s, ws) && IsBoundary(s.createdAt, start) && CoveredTo(s, ws, start)
    ensures Covered(Attempted(s, ws, start, fate), ws)
  {
    var r := Attempted(s, ws, start, fate);
    MoreInvoicesCover(s, r, ws, Pointer(s));
    if fate == Succeeds { OneWindowMore(s, r, ws, start); }
    forall w | w in s.reading ensures CoveredTo(r, ws, s.reading[w]) {
      MoreInvoicesCover(s, r, ws, s.reading[w]);
    }
  }

  lemma SameInvoices(s: State, r: State, ws: string)
    requires Covered(s, ws)
    requires r == s.(reading := r.reading) && forall w :: w in r.reading ==> CoveredTo(s, ws, r.reading[w])
    ensures Covered(r, ws)
  {
    MoreInvoicesCover(s, r, ws, Pointer(s));
    forall w | w in r.reading ensures CoveredTo(r, ws, r.reading[w]) { MoreInvoicesCover(s, r, ws, r.reading[w]); }
  }

  lemma StepKeepsCoveredIff(s: State, ws: string, e: Event, time: int)
    requires Covered(s, ws) && AllDue(s, ws, time) && Placed(s, time)
    ensures Covered(Step(s, ws, e), ws) <==> !PostsBehind(s, ws, e)
  {
    match e
    case Posted(entry, now) =>
      DueHaveRows(s, ws, time);
      PostKeepsCoveredIff(s, ws, entry, time, now);
    case Read(_, _) => SameInvoices(s, Step(s, ws, e), ws);
    case Finish(worker, _, fate) =>
      if worker in s.reading {
        AttemptKeepsCovered(s, ws, s.reading[worker], fate);
        SameInvoices(Attempted(s, ws, s.reading[worker], fate), Step(s, ws, e), ws);
      }
  }

  predicate Begins(s: State) { s.lastInvoice == None && s.stripe == [] && s.local == [] && s.reading == map[] }

  /** A run from the creation of the workspace on. */
  predicate IsRun(s: State, events: seq<Event>) {
    Begins(s) && Monotone(events) && forall k :: 0 <= k < |events| ==> s.createdAt <= events[k].now
  }

  function LastTime(s: State, events: seq<Event>): int {
    if events == [] then s.createdAt else events[|events| - 1].now
  }

  ghost predicate Standing(s: State, ws: string, r: State, time: int) {
    Placed(r, time) && AllDue(r, ws, time) && r.createdAt == s.createdAt
  }

  /** With any number of generators and whatever fails: the pointer ends a window that has passed, and every invoice is
      that of a window that has passed, with what was charged in it by the time of its attempt. */
  lemma {:induction false} InvoicesAreOfWindows(s: State, ws: string, events: seq<Event>)
    requires IsRun(s, events)
    ensures Standing(s, ws, After(s, ws, events), LastTime(s, events))
    decreases |events|
  {
    if events != [] {
      var init, e := events[..|events| - 1], events[|events| - 1];
      InvoicesAreOfWindows(s, ws, init);
      StepKeepsPlaced(After(s, ws, init), ws, e, LastTime(s, init));
      StepKeepsDue(After(s, ws, init), ws, e, LastTime(s, init));
    }
  }

  ghost predicate CoveredThroughout(s: State, ws: string, events: seq<Event>) {
    Covered(After(s, ws, events), ws) && (events != [] ==> CoveredThroughout(s, ws, events[..|events| - 1]))
  }

  predicate NonePostsBehind(s: State, ws: string, events: seq<Event>) {
    events == [] ||
    var init := events[..|events| - 1];
    NonePostsBehind(s, ws, init) && !PostsBehind(After(s, ws, init), ws, events[|events| - 1])
  }

  /** With any number of generators and whatever fails: after every event each window before the pointer, or before what
      an open attempt has read, has an invoice at Stripe and locally for all that is charged in it, if and only if no
      charge is posted behind them. */
  lemma {:induction false} WindowsAreInvoicedAtLeastOnceIff(s: State, ws: string, events: seq<Event>)
    requires IsRun(s, events)
    ensures CoveredThroughout(s, ws, events) <==> NonePostsBehind(s, ws, events)
    decreases |events|
  {
    if events != [] {
      var init, e := events[..|events| - 1], events[|events| - 1];
      WindowsAreInvoicedAtLeastOnceIff(s, ws, init);
      InvoicesAreOfWindows(s, ws, init);
      if CoveredThroughout(s, ws, init) { StepKeepsCoveredIff(After(s, ws, init), ws, e, LastTime(s, init)); }
    }
  }

  // ---- Exactly once ----

  function PassedInvoices(ledger: seq<Entry>, ws: string, createdAt: int, t: int): seq<Invoice>
    requires IsBoundary(createdAt, t)
  {
    WindowInvoices(ledger, ws, createdAt, Index(createdAt, t))
  }

  /** One invoice for each window before the pointer that the ledger has charges in, in order, at Stripe and locally. */
  predicate ExactOver(s: State, ledger: seq<Entry>, ws: string) {
    IsBoundary(s.createdAt, Pointer(s)) && s.stripe == s.local == PassedInvoices(ledger, ws, s.createdAt, Pointer(s))
  }

  predicate Exact(s: State, ws: string) { ExactOver(s, s.ledger, ws) }

  function Between(ledger: seq<Entry>, ws: string, t: int, u: int): nat {
    Charges(ledger, ws, if t <= u then t else u, if t <= u then u else t)
  }

  /** An attempt strays if it succeeds at a window that charges separate from where the pointer is by now, or if it
      fails behind a finalised invoice. */
  predicate Strays(s: State, ws: string, e: Event) {
    e.Finish? && e.worker in s.reading &&
    var start := s.reading[e.worker];
    match e.fate
    case StripeFails => false
    case Succeeds => Between(s.ledger, ws, Pointer(s), start) > 0
    case _ => Charges(s.ledger, ws, start, start + MONTH) > 0
  }

  lemma {:induction false} MoreWindows(ledger: seq<Entry>, ws: string, createdAt: int, m: nat, n: nat)
    requires m <= n
    ensures |WindowInvoices(ledger, ws, createdAt, m)| <= |WindowInvoices(ledger, ws, createdAt, n)|
    ensures WindowInvoices(ledger, ws, createdAt, m) == WindowInvoices(ledger, ws, createdAt, n)
            <==> Charges(ledger, ws, WindowStart(createdAt, m), WindowStart(createdAt, n)) == 0
    decreases n
  {
    if m == n {
      SumOfNothing(ledger, ws, MetalMonthly, WindowStart(createdAt, m));
      SumOfNothing(ledger, ws, UsageLiquid, WindowStart(createdAt, m));
    } else {
      MoreWindows(ledger, ws, createdAt, m, n - 1);
      ChargesSplit(ledger, ws, WindowStart(createdAt, m), WindowStart(createdAt, n - 1), WindowStart(createdAt, n));
    }
  }

  lemma SameInvoicesIff(ledger: seq<Entry>, ws: string, createdAt: int, t: int, u: int)
    requires IsBoundary(createdAt, t) && IsBoundary(createdAt, u)
    ensures PassedInvoices(ledger, ws, createdAt, t) == PassedInvoices(ledger, ws, createdAt, u)
            <==> Between(ledger, ws, t, u) == 0
  {
    if t <= u {
      MoreWindows(ledger, ws, createdAt, Index(createdAt, t), Index(createdAt, u));
    } else {
      MoreWindows(ledger, ws, createdAt, Index(createdAt, u), Index(createdAt, t));
    }
  }

  lemma NextInvoices(ledger: seq<Entry>, ws: string, createdAt: int, t: int)
    requires IsBoundary(createdAt, t)
    ensures IsBoundary(createdAt, t + MONTH)
    ensures PassedInvoices(ledger, ws, createdAt, t + MONTH)
         == PassedInvoices(ledger, ws, createdAt, t)
            + if Charges(ledger, ws, t, t + MONTH) == 0 then [] else [InvoiceFor(ledger, ws, t)]
  {
    NextBoundary(createdAt, t);
    NextWindow(createdAt, Index(createdAt, t));
  }

  lemma AppendSame<T>(a: seq<T>, b: seq<T>, c: seq<T>)
    ensures a + c == b + c <==> a == b
  {
    if a + c == b + c {
      assert a == (a + c)[..|a|] && b == (b + c)[..|b|];
    }
  }

  lemma SuccessKeepsExactIff(s: State, ws: string, start: int)
    requires Exact(s, ws) && IsBoundary(s.createdAt, start)
    ensures Exact(Attempted(s, ws, start, Succeeds), ws) <==> Between(s.ledger, ws, Pointer(s), start) == 0
  {
    var due := PassedInvoices(s.ledger, ws, s.createdAt, start);
    var more := if Charges(s.ledger, ws, start, start + MONTH) == 0 then [] else [InvoiceFor(s.ledger, ws, start)];
    NextInvoices(s.ledger, ws, s.createdAt, start);
    SameInvoicesIff(s.ledger, ws, s.createdAt, Pointer(s), start);
    AppendSame(s.stripe, due, more);
    assert s.stripe + [] == s.stripe;
  }

  lemma AttemptKeepsExactIff(s: State, ws: string, worker: nat, now: int, fate: Fate)
    requires Exact(s, ws) && worker in s.reading && IsBoundary(s.createdAt, s.reading[worker])
    ensures Exact(Step(s, ws, Finish(worker, now, fate)), ws) <==> !Strays(s, ws, Finish(worker, now, fate))
  {
    if fate == Succeeds { SuccessKeepsExactIff(s, ws, s.reading[worker]); }
  }

  /** A charge is posted behind the pointer. */
  predicate Misses(s: State, ws: string, e: Event) {
    e.Posted? && InWindow(e.entry, ws, s.createdAt, Pointer(s))
  }

  lemma PostKeepsExactIff(s: State, ws: string, entry: Entry)
    requires Exact(s, ws)
    ensures Exact(s.(ledger := s.ledger + [entry]), ws) <==> !InWindow(entry, ws, s.createdAt, Pointer(s))
  {
    if InWindow(entry, ws, s.createdAt, Pointer(s)) {
      WindowsNotice(s.ledger, entry, ws, s.createdAt, Pointer(s));
    } else {
      WindowsIgnore(s.ledger, entry, ws, s.createdAt, Index(s.createdAt, Pointer(s)));
    }
  }

  lemma StepKeepsExactIff(s: State, ws: string, e: Event, time: int)
    requires Exact(s, ws) && Placed(s, time)
    ensures Exact(Step(s, ws, e), ws) <==> !Strays(s, ws, e) && !Misses(s, ws, e)
  {
    match e
    case Posted(entry, _) => PostKeepsExactIff(s, ws, entry);
    case Read(_, _) =>
    case Finish(worker, now, fate) => if worker in s.reading { AttemptKeepsExactIff(s, ws, worker, now, fate); }
  }

  predicate ExactThroughout(s: State, ws: string, events: seq<Event>) {
    Exact(After(s, ws, events), ws) && (events != [] ==> ExactThroughout(s, ws, events[..|events| - 1]))
  }

  predicate NoneStrays(s: State, ws: string, events: seq<Event>) {
    events == [] ||
    var init := events[..|events| - 1];
    NoneStrays(s, ws, init) && !Strays(After(s, ws, init), ws, events[|events| - 1])
  }

  predicate NoneMisses(s: State, ws: string, events: seq<Event>) {
    events == [] ||
    var init := events[..|events| - 1];
    NoneMisses(s, ws, init) && !Misses(After(s, ws, init), ws, events[|events| - 1])
  }

  /** The invoices are, after every event, exactly one for each charged window before the pointer, at Stripe and
      locally, with all that is charged in it, if and only if no attempt of the run strays and no charge is posted
      behind the pointer. */
  lemma {:induction false} InvoicesAreTheWindowsIff(s: State, ws: string, events: seq<Event>)
    requires IsRun(s, events)
    ensures ExactThroughout(s, ws, events) <==> NoneStrays(s, ws, events) && NoneMisses(s, ws, events)
    decreases |events|
  {
    if events != [] {
      var init, e := events[..|events| - 1], events[|events| - 1];
      InvoicesAreTheWindowsIff(s, ws, init);
      InvoicesAreOfWindows(s, ws, init);
      if ExactThroughout(s, ws, init) { StepKeepsExactIff(After(s, ws, init), ws, e, LastTime(s, init)); }
    }
  }

  /** An attempt does not stray if the pointer is still what it read and nothing fails once Stripe has finalised. */
  lemma CurrentAttemptsDoNotStray(s: State, ws: string, worker: nat, now: int, fate: Fate)
    requires worker in s.reading && s.reading[worker] == Pointer(s) && (fate == StripeFails || fate == Succeeds)
    ensures !Strays(s, ws, Finish(worker, now, fate))
  {
    SumOfNothing(s.ledger, ws, MetalMonthly, Pointer(s));
    SumOfNothing(s.ledger, ws, UsageLiquid, Pointer(s));
  }

  /** A posting adds its amount to the charges of each window that it is stamped in, if it is a monthly Metal charge or
      a usage charge of the workspace, and nothing otherwise. */
  lemma PostingCharges(ledger: seq<Entry>, e: Entry, ws: string, start: int, end: int)
    ensures Charges(ledger + [e], ws, start, end) == Charges(ledger, ws, start, end)
         + if e.posting.workspace == ws && e.posting.kind in {MetalMonthly, UsageLiquid} && start <= e.at < end
           then (if e.posting.amount < 0 then -e.posting.amount else e.posting.amount) else 0
  {
    assert (ledger + [e])[..|ledger + [e]| - 1] == ledger;
  }

  // ---- Every charge is invoiced once, less what rounding loses ----

  lemma {:induction false} SumSplits(ledger: seq<Entry>, ws: string, kind: Kind, a: int, b: int, c: int)
    requires a <= b <= c
    ensures Sum(ledger, ws, kind, a, c) == Sum(ledger, ws, kind, a, b) + Sum(ledger, ws, kind, b, c)
    decreases |ledger|
  {
    if ledger != [] { SumSplits(ledger[..|ledger| - 1], ws, kind, a, b, c); }
  }

  /** Charges for Metal are whole cents. */
  predicate WholeCents(ledger: seq<Entry>) {
    forall k :: 0 <= k < |ledger| ==> IsWholeCents(ledger[k].posting)
  }

  predicate IsWholeCents(p: Posting) { p.kind == MetalMonthly ==> p.amount % MICROCREDITS_PER_CENT == 0 }

  lemma WholeCentsAdd(a: nat, amount: int)
    requires a % MICROCREDITS_PER_CENT == 0 && amount % MICROCREDITS_PER_CENT == 0
    ensures (a + Abs(amount)) % MICROCREDITS_PER_CENT == 0
  {
    var p, q := a / MICROCREDITS_PER_CENT, amount / MICROCREDITS_PER_CENT;
    assert a + Abs(amount) == (p + Abs(q)) * MICROCREDITS_PER_CENT;
  }

  lemma {:induction false} MetalSumIsWholeCents(ledger: seq<Entry>, ws: string, start: int, end: int)
    requires WholeCents(ledger)
    ensures Sum(ledger, ws, MetalMonthly, start, end) % MICROCREDITS_PER_CENT == 0
    decreases |ledger|
  {
    if ledger != [] {
      var init, p := ledger[..|ledger| - 1], ledger[|ledger| - 1].posting;
      MetalSumIsWholeCents(init, ws, start, end);
      assert IsWholeCents(p);
      if p.kind == MetalMonthly { WholeCentsAdd(Sum(init, ws, MetalMonthly, start, end), p.amount); }
    }
  }

  /** The two parts, each rounded down, add up to the total rounded down: an invoice loses less than a cent. */
  lemma InvoiceLosesLessThanACent(ledger: seq<Entry>, ws: string, start: int, end: int)
    requires WholeCents(ledger)
    ensures Cents(ledger, ws, start, end) == Charges(ledger, ws, start, end) / MICROCREDITS_PER_CENT
    ensures var lost := Charges(ledger, ws, start, end) - Cents(ledger, ws, start, end) * MICROCREDITS_PER_CENT;
            0 <= lost < MICROCREDITS_PER_CENT
  {
    MetalSumIsWholeCents(ledger, ws, start, end);
  }

  function TotalCents(invoices: seq<Invoice>): int {
    if invoices == [] then 0 else TotalCents(invoices[..|invoices| - 1]) + invoices[|invoices| - 1].cents
  }

  lemma TotalSnoc(invoices: seq<Invoice>, i: Invoice)
    ensures TotalCents(invoices + [i]) == TotalCents(invoices) + i.cents
  {
    assert (invoices + [i])[..|invoices + [i]| - 1] == invoices;
  }

  /** The invoices cover the charges, up to less than a cent per invoice. */
  predicate Covers(invoices: seq<Invoice>, charges: int) {
    var lost := charges - TotalCents(invoices) * MICROCREDITS_PER_CENT;
    0 <= lost <= |invoices| * (MICROCREDITS_PER_CENT - 1)
  }

  lemma OneMoreInvoice(invoices: seq<Invoice>, charges: int, i: Invoice, more: int)
    requires Covers(invoices, charges) && 0 <= more - i.cents * MICROCREDITS_PER_CENT < MICROCREDITS_PER_CENT
    ensures Covers(invoices + [i], charges + more)
  {
    TotalSnoc(invoices, i);
  }

  lemma ChargesSplit(ledger: seq<Entry>, ws: string, a: int, b: int, c: int)
    requires a <= b <= c
    ensures Charges(ledger, ws, a, c) == Charges(ledger, ws, a, b) + Charges(ledger, ws, b, c)
  {
    SumSplits(ledger, ws, MetalMonthly, a, b, c);
    SumSplits(ledger, ws, UsageLiquid, a, b, c);
  }

  lemma WindowsMoveOn(createdAt: int, n: nat)
    ensures createdAt <= WindowStart(createdAt, n) < WindowStart(createdAt, n + 1)
  {
  }

  lemma OneMoreWindow(ledger: seq<Entry>, ws: string, createdAt: int, n: nat, before: seq<Invoice>, charges: int,
                      total: int)
    requires WholeCents(ledger) && Covers(before, charges)
    requires total == charges + Charges(ledger, ws, WindowStart(createdAt, n), WindowStart(createdAt, n + 1))
    ensures Covers(before + WindowInvoice(ledger, ws, createdAt, n), total)
  {
    var start, end := WindowStart(createdAt, n), WindowStart(createdAt, n + 1);
    if Charges(ledger, ws, start, end) == 0 {
      assert before + [] == before;
    } else {
      InvoiceLosesLessThanACent(ledger, ws, start, end);
      NextWindow(createdAt, n);
      OneMoreInvoice(before, charges, InvoiceFor(ledger, ws, start), Charges(ledger, ws, start, end));
    }
  }

  lemma ChargesToNext(ledger: seq<Entry>, ws: string, createdAt: int, n: nat)
    ensures Charges(ledger, ws, createdAt, WindowStart(createdAt, n + 1))
         == Charges(ledger, ws, createdAt, WindowStart(createdAt, n))
            + Charges(ledger, ws, WindowStart(createdAt, n), WindowStart(createdAt, n + 1))
  {
    WindowsMoveOn(createdAt, n);
    ChargesSplit(ledger, ws, createdAt, WindowStart(createdAt, n), WindowStart(createdAt, n + 1));
  }

  lemma NothingInNoWindow(ledger: seq<Entry>, ws: string, createdAt: int)
    ensures Covers([], Charges(ledger, ws, createdAt, WindowStart(createdAt, 0)))
    ensures Charges(ledger, ws, createdAt, WindowStart(createdAt, 0)) == 0
  {
    SumOfNothing(ledger, ws, MetalMonthly, createdAt);
    SumOfNothing(ledger, ws, UsageLiquid, createdAt);
  }

  /** The invoices of the first `n` windows together cover every charge from the creation to the end of the last one,
      each once, up to less than a cent per invoice. */
  lemma {:induction false} WindowsCoverTheCharges(ledger: seq<Entry>, ws: string, createdAt: int, n: nat)
    requires WholeCents(ledger)
    ensures Covers(WindowInvoices(ledger, ws, createdAt, n), Charges(ledger, ws, createdAt, WindowStart(createdAt, n)))
  {
    var k, invoices, charges := 0, WindowInvoices(ledger, ws, createdAt, 0), 0;
    NothingInNoWindow(ledger, ws, createdAt);
    while k < n
      invariant k <= n && invoices == WindowInvoices(ledger, ws, createdAt, k)
      invariant charges == Charges(ledger, ws, createdAt, WindowStart(createdAt, k))
      invariant Covers(invoices, charges)
    {
      var more := WindowInvoice(ledger, ws, createdAt, k);
      var total := Charges(ledger, ws, createdAt, WindowStart(createdAt, k + 1));
      ChargesToNext(ledger, ws, createdAt, k);
      OneMoreWindow(ledger, ws, createdAt, k, invoices, charges, total);
      WindowsSnoc(ledger, ws, createdAt, k);
      k, invoices, charges := k + 1, invoices + more, total;
    }
  }

  lemma ExactCovers(s: State, ledger: seq<Entry>, ws: string)
    requires ExactOver(s, ledger, ws) && WholeCents(ledger)
    ensures Covers(s.stripe, Charges(ledger, ws, s.createdAt, Pointer(s)))
  {
    WindowsCoverTheCharges(ledger, ws, s.createdAt, Index(s.createdAt, Pointer(s)));
  }

  lemma {:induction false} SumOfNothing(ledger: seq<Entry>, ws: string, kind: Kind, t: int)
    ensures Sum(ledger, ws, kind, t, t) == 0
    decreases |ledger|
  {
    if ledger != [] { SumOfNothing(ledger[..|ledger| - 1], ws, kind, t); }
  }

  // ---- Invoiced twice ----

  const CHARGE: Entry := Entry(Posting("w", -50_000, UsageLiquid, "", None, None), 0, 0)

  /** A workspace created at 0 and charged five cents then. */
  const CHARGED: State := State([CHARGE], 0, None, [], [], map[])

  const RECEIPT: Invoice := Invoice(0, MONTH, 5, 50_000, {0})

  lemma ChargedFiveCents()
    ensures Charges([CHARGE], "w", 0, MONTH) == 50_000 && InvoiceFor([CHARGE], "w", 0) == RECEIPT
  {
    var none: seq<Entry> := [];
    assert [CHARGE][..0] == none;
    assert Sum(none, "w", UsageLiquid, 0, MONTH) == 0 == Sum(none, "w", MetalMonthly, 0, MONTH);
    assert Rows([CHARGE], "w", 0, MONTH) == {0};
  }

  lemma AfterFour(s: State, ws: string, a: Event, b: Event, c: Event, d: Event)
    ensures After(s, ws, [a, b, c, d]) == Step(Step(Step(Step(s, ws, a), ws, b), ws, c), ws, d)
  {
    AfterSnoc(s, ws, [], a);
    AfterSnoc(s, ws, [a], b);
    AfterSnoc(s, ws, [a, b], c);
    AfterSnoc(s, ws, [a, b, c], d);
    DisplaysGrow(a, b, c, d);
  }

  lemma AfterSnoc(s: State, ws: string, events: seq<Event>, e: Event)
    ensures After(s, ws, events + [e]) == Step(After(s, ws, events), ws, e)
  {
    assert (events + [e])[..|events + [e]| - 1] == events;
  }

  /** Two generators that read the pointer before either has moved it both invoice the window, with nothing failing. */
  lemma TwoGeneratorsInvoiceTwice()
    ensures var events := [Read(1, MONTH), Read(2, MONTH), Finish(1, MONTH, Succeeds), Finish(2, MONTH, Succeeds)];
            After(CHARGED, "w", events)
            == CHARGED.(lastInvoice := Some(MONTH), stripe := [RECEIPT, RECEIPT], local := [RECEIPT, RECEIPT])
  {
    AfterFour(CHARGED, "w", Read(1, MONTH), Read(2, MONTH), Finish(1, MONTH, Succeeds), Finish(2, MONTH, Succeeds));
    ChargedFiveCents();
  }

  lemma FirstAttempt(fate: Fate)
    ensures var r := Step(Step(CHARGED, "w", Read(1, MONTH)), "w", Finish(1, MONTH, fate));
            && (fate == InsertFails ==> r == CHARGED.(stripe := [RECEIPT]))
            && (fate == PointerFails ==> r == CHARGED.(stripe := [RECEIPT], local := [RECEIPT]))
  {
    ChargedFiveCents();
  }

  lemma SecondAttempt(s: State)
    requires s == CHARGED.(stripe := s.stripe, local := s.local)
    ensures Step(Step(s, "w", Read(1, MONTH)), "w", Finish(1, MONTH, Succeeds))
         == CHARGED.(lastInvoice := Some(MONTH), stripe := s.stripe + [RECEIPT], local := s.local + [RECEIPT])
  {
    ChargedFiveCents();
  }

  /** One generator whose local insert fails behind a paid invoice invoices the window again at Stripe. */
  lemma FailedInsertInvoicesTwice()
    ensures var events := [Read(1, MONTH), Finish(1, MONTH, InsertFails), Read(1, MONTH), Finish(1, MONTH, Succeeds)];
            After(CHARGED, "w", events)
            == CHARGED.(lastInvoice := Some(MONTH), stripe := [RECEIPT, RECEIPT], local := [RECEIPT])
  {
    AfterFour(CHARGED, "w", Read(1, MONTH), Finish(1, MONTH, InsertFails), Read(1, MONTH), Finish(1, MONTH, Succeeds));
    FirstAttempt(InsertFails);
    SecondAttempt(CHARGED.(stripe := [RECEIPT]));
  }

  /** One whose pointer update fails does so in both places. */
  lemma FailedPointerInvoicesTwice()
    ensures var events := [Read(1, MONTH), Finish(1, MONTH, PointerFails), Read(1, MONTH), Finish(1, MONTH, Succeeds)];
            After(CHARGED, "w", events)
            == CHARGED.(lastInvoice := Some(MONTH), stripe := [RECEIPT, RECEIPT], local := [RECEIPT, RECEIPT])
  {
    AfterFour(CHARGED, "w", Read(1, MONTH), Finish(1, MONTH, PointerFails), Read(1, MONTH), Finish(1, MONTH, Succeeds));
    FirstAttempt(PointerFails);
    SecondAttempt(CHARGED.(stripe := [RECEIPT], local := [RECEIPT]));
  }
}
