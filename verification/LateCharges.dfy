/** Charges that are posted behind the pointer of the invoices (crates/api/src/billing.rs:1062-1263). A posting is
    stamped when its transaction begins and can be seen when it commits, and a deploy's transaction stays open while it
    waits for other services (crates/api/src/routes/deployments.rs:352-446): its charge can appear in a window that has
    been invoiced. Which charges are invoiced, exactly. */
module LateCharges {
  import opened Prelude
  import opened Ledger
  import opened MetalBilling
  import opened Invoices

  /** A charge that nobody will look at. */
  function Blank(e: Entry): Entry { e.(posting := e.posting.(amount := 0)) }

  function TimelyNext(s: State, ws: string, timely: seq<Entry>, e: Event): seq<Entry> {
    if !e.Posted? then timely else timely + [if Misses(s, ws, e) then Blank(e.entry) else e.entry]
  }

  /** The ledger with the charges blanked that were posted behind the pointer. */
  function Timely(s: State, ws: string, events: seq<Event>): seq<Entry> {
    if events == [] then s.ledger
    else
      var init := events[..|events| - 1];
      TimelyNext(After(s, ws, init), ws, Timely(s, ws, init), events[|events| - 1])
  }

  /** What is blanked lies between the creation of the workspace and `t`. */
  predicate AgreesAt(e: Entry, timely: Entry, ws: string, createdAt: int, t: int) {
    timely == e || (timely == Blank(e) && InWindow(e, ws, createdAt, t))
  }

  ghost predicate Agrees(ledger: seq<Entry>, timely: seq<Entry>, ws: string, createdAt: int, t: int) {
    && |timely| == |ledger|
    && forall i: nat {:trigger ledger[i]} {:trigger timely[i]} :: i < |ledger|
         ==> AgreesAt(ledger[i], timely[i], ws, createdAt, t)
  }

  lemma AgreesInit(ledger: seq<Entry>, timely: seq<Entry>, ws: string, createdAt: int, t: int)
    requires Agrees(ledger, timely, ws, createdAt, t) && ledger != []
    ensures Agrees(ledger[..|ledger| - 1], timely[..|timely| - 1], ws, createdAt, t)
    ensures AgreesAt(ledger[|ledger| - 1], timely[|ledger| - 1], ws, createdAt, t)
  {
    var n := |ledger| - 1;
    forall i: nat | i < n ensures AgreesAt(ledger[..n][i], timely[..n][i], ws, createdAt, t) {
      assert AgreesAt(ledger[i], timely[i], ws, createdAt, t);
    }
  }

  /** From where the blanked charges end on, the sums are the same. */
  lemma {:induction false} SameSums(ledger: seq<Entry>, timely: seq<Entry>, ws: string, kind: Kind, createdAt: int,
                                    t: int, start: int, end: int)
    requires Agrees(ledger, timely, ws, createdAt, t) && t <= start && kind in {MetalMonthly, UsageLiquid}
    ensures Sum(timely, ws, kind, start, end) == Sum(ledger, ws, kind, start, end)
    decreases |ledger|
  {
    if ledger != [] {
      AgreesInit(ledger, timely, ws, createdAt, t);
      SameSums(ledger[..|ledger| - 1], timely[..|timely| - 1], ws, kind, createdAt, t, start, end);
    }
  }

  lemma SameInvoice(ledger: seq<Entry>, timely: seq<Entry>, ws: string, createdAt: int, t: int, start: int)
    requires Agrees(ledger, timely, ws, createdAt, t) && t <= start
    ensures InvoiceFor(timely, ws, start) == InvoiceFor(ledger, ws, start)
  {
    SameSums(ledger, timely, ws, MetalMonthly, createdAt, t, start, start + MONTH);
    SameSums(ledger, timely, ws, UsageLiquid, createdAt, t, start, start + MONTH);
    forall i: nat | i < |ledger|
      ensures InWindow(timely[i], ws, start, start + MONTH) <==> InWindow(ledger[i], ws, start, start + MONTH)
    {
      assert AgreesAt(ledger[i], timely[i], ws, createdAt, t);
    }
    assert Rows(timely, ws, start, start + MONTH) == Rows(ledger, ws, start, start + MONTH);
  }

  /** Blanking takes nothing away from a window exactly if none of its charges is blanked. */
  lemma {:induction false} SumIsLessIff(ledger: seq<Entry>, timely: seq<Entry>, ws: string, createdAt: int, t: int,
                                        start: int, end: int)
    requires Agrees(ledger, timely, ws, createdAt, t)
    ensures Charges(timely, ws, start, end) <= Charges(ledger, ws, start, end)
    ensures Charges(timely, ws, start, end) == Charges(ledger, ws, start, end)
            <==> forall i: nat {:trigger ledger[i]} :: i < |ledger| && InWindow(ledger[i], ws, start, end)
                   ==> timely[i] == ledger[i]
    decreases |ledger|
  {
    if ledger != [] {
      var n := |ledger| - 1;
      AgreesInit(ledger, timely, ws, createdAt, t);
      SumIsLessIff(ledger[..n], timely[..n], ws, createdAt, t, start, end);
      assert forall i: nat :: i < n ==> ledger[..n][i] == ledger[i] && timely[..n][i] == timely[i];
    }
  }

  // ---- The invoices are those of the timely charges ----

  lemma AgreesNearer(ledger: seq<Entry>, timely: seq<Entry>, ws: string, createdAt: int, t: int, u: int)
    requires Agrees(ledger, timely, ws, createdAt, t)
    requires t <= u || Charges(ledger, ws, u, t) == 0
    ensures Agrees(ledger, timely, ws, createdAt, u)
  {
    if u < t { SumIffRows(ledger, ws, u, t); }
    forall i: nat | i < |ledger| ensures AgreesAt(ledger[i], timely[i], ws, createdAt, u) {
      assert AgreesAt(ledger[i], timely[i], ws, createdAt, t);
      assert u < t ==> i !in Rows(ledger, ws, u, t);
    }
  }

  ghost predicate InvoicesTimely(s: State, timely: seq<Entry>, ws: string) {
    ExactOver(s, timely, ws) && Agrees(s.ledger, timely, ws, s.createdAt, Pointer(s))
  }

  lemma PostKeepsTimely(s: State, timely: seq<Entry>, ws: string, e: Event)
    requires InvoicesTimely(s, timely, ws) && e.Posted?
    ensures InvoicesTimely(Step(s, ws, e), TimelyNext(s, ws, timely, e), ws)
  {
    var r, next := Step(s, ws, e), TimelyNext(s, ws, timely, e);
    WindowsIgnore(timely, next[|timely|], ws, s.createdAt, Index(s.createdAt, Pointer(s)));
    forall i: nat | i < |r.ledger| ensures AgreesAt(r.ledger[i], next[i], ws, s.createdAt, Pointer(s)) {
      if i < |s.ledger| { assert AgreesAt(s.ledger[i], timely[i], ws, s.createdAt, Pointer(s)); }
    }
  }

  lemma NothingBetween(s: State, timely: seq<Entry>, ws: string, start: int)
    requires InvoicesTimely(s, timely, ws) && IsBoundary(s.createdAt, start)
    requires Between(s.ledger, ws, Pointer(s), start) == 0
    ensures PassedInvoices(timely, ws, s.createdAt, start) == PassedInvoices(timely, ws, s.createdAt, Pointer(s))
  {
    var t, u := if Pointer(s) <= start then Pointer(s) else start, if Pointer(s) <= start then start else Pointer(s);
    SumIsLessIff(s.ledger, timely, ws, s.createdAt, Pointer(s), t, u);
    SameInvoicesIff(timely, ws, s.createdAt, Pointer(s), start);
  }

  /** The window of an attempt that is behind the pointer with nothing charged in between is empty. */
  lemma EmptyWindow(ledger: seq<Entry>, ws: string, createdAt: int, start: int, pointer: int)
    requires IsBoundary(createdAt, start) && IsBoundary(createdAt, pointer) && start < pointer
    requires Charges(ledger, ws, start, pointer) == 0
    ensures start + MONTH <= pointer && Charges(ledger, ws, start, start + MONTH) == 0
    ensures Charges(ledger, ws, start + MONTH, pointer) == 0
  {
    assert Index(createdAt, start) < Index(createdAt, pointer);
    ChargesSplit(ledger, ws, start, start + MONTH, pointer);
  }

  lemma SuccessKeepsTimely(s: State, timely: seq<Entry>, ws: string, start: int)
    requires InvoicesTimely(s, timely, ws) && IsBoundary(s.createdAt, start)
    requires Between(s.ledger, ws, Pointer(s), start) == 0
    ensures InvoicesTimely(Attempted(s, ws, start, Succeeds), timely, ws)
  {
    NothingBetween(s, timely, ws, start);
    NextInvoices(timely, ws, s.createdAt, start);
    if start < Pointer(s) {
      EmptyWindow(s.ledger, ws, s.createdAt, start, Pointer(s));
      SumIsLessIff(s.ledger, timely, ws, s.createdAt, Pointer(s), start, start + MONTH);
    } else {
      SameInvoice(s.ledger, timely, ws, s.createdAt, Pointer(s), start);
    }
    AgreesNearer(s.ledger, timely, ws, s.createdAt, Pointer(s), start + MONTH);
  }

  lemma StepKeepsTimely(s: State, timely: seq<Entry>, ws: string, e: Event, time: int)
    requires InvoicesTimely(s, timely, ws) && Placed(s, time) && !Strays(s, ws, e)
    ensures InvoicesTimely(Step(s, ws, e), TimelyNext(s, ws, timely, e), ws)
  {
    match e
    case Posted(_, _) => PostKeepsTimely(s, timely, ws, e);
    case Read(_, _) =>
    case Finish(worker, _, fate) =>
      if worker in s.reading && fate == Succeeds { SuccessKeepsTimely(s, timely, ws, s.reading[worker]); }
  }

  lemma NothingYet(s: State, ws: string)
    requires Begins(s)
    ensures InvoicesTimely(s, s.ledger, ws)
  {
  }

  /** Over every run in which no attempt strays, whatever is posted behind the pointer: the invoices at Stripe and
      locally are exactly one for each window before the pointer with timely charges in it, for these charges alone. */
  lemma {:induction false} InvoicesAreOfTimelyCharges(s: State, ws: string, events: seq<Event>)
    requires IsRun(s, events) && NoneStrays(s, ws, events)
    ensures After(s, ws, events).createdAt == s.createdAt
    ensures InvoicesTimely(After(s, ws, events), Timely(s, ws, events), ws)
    decreases |events|
  {
    if events == [] {
      NothingYet(s, ws);
    } else {
      var init := events[..|events| - 1];
      InvoicesAreOfTimelyCharges(s, ws, init);
      InvoicesAreOfWindows(s, ws, init);
      StepKeepsTimely(After(s, ws, init), Timely(s, ws, init), ws, events[|events| - 1], LastTime(s, init));
    }
  }

  // ---- One charge ----

  /** How many of the invoices have the ledger's row `i` in their sums. */
  function TimesInvoiced(invoices: seq<Invoice>, i: nat): nat {
    if invoices == [] then 0
    else TimesInvoiced(invoices[..|invoices| - 1], i) + if i in invoices[|invoices| - 1].rows then 1 else 0
  }

  lemma TimesSnoc(invoices: seq<Invoice>, more: seq<Invoice>, i: nat)
    requires |more| <= 1
    ensures TimesInvoiced(invoices + more, i)
         == TimesInvoiced(invoices, i) + if |more| == 1 && i in more[0].rows then 1 else 0
  {
    if more == [] {
      assert invoices + more == invoices;
    } else {
      assert (invoices + more)[..|invoices + more| - 1] == invoices;
    }
  }

  lemma TimesInWindow(ledger: seq<Entry>, ws: string, createdAt: int, n: nat, i: nat)
    requires i < |ledger|
    ensures var more := WindowInvoice(ledger, ws, createdAt, n);
            (|more| == 1 && i in more[0].rows)
            <==> InWindow(ledger[i], ws, WindowStart(createdAt, n), WindowStart(createdAt, n + 1))
  {
    var start, end := WindowStart(createdAt, n), WindowStart(createdAt, n + 1);
    NextWindow(createdAt, n);
    SumIffRows(ledger, ws, start, end);
    assert i in Rows(ledger, ws, start, end) <==> InWindow(ledger[i], ws, start, end);
  }

  function Once(e: Entry, ws: string, start: int, end: int): nat { if InWindow(e, ws, start, end) then 1 else 0 }

  lemma TimesToNext(ledger: seq<Entry>, ws: string, createdAt: int, n: nat, i: nat, invoices: seq<Invoice>)
    requires i < |ledger|
    requires TimesInvoiced(invoices, i) == Once(ledger[i], ws, createdAt, WindowStart(createdAt, n))
    ensures TimesInvoiced(invoices + WindowInvoice(ledger, ws, createdAt, n), i)
         == Once(ledger[i], ws, createdAt, WindowStart(createdAt, n + 1))
  {
    var more := WindowInvoice(ledger, ws, createdAt, n);
    WindowsMoveOn(createdAt, n);
    TimesInWindow(ledger, ws, createdAt, n, i);
    TimesSnoc(invoices, more, i);
  }

  lemma {:induction false} TimesInWindows(ledger: seq<Entry>, ws: string, createdAt: int, n: nat, i: nat)
    requires i < |ledger|
    ensures TimesInvoiced(WindowInvoices(ledger, ws, createdAt, n), i)
         == Once(ledger[i], ws, createdAt, WindowStart(createdAt, n))
  {
    var k, invoices := 0, WindowInvoices(ledger, ws, createdAt, 0);
    while k < n
      invariant k <= n && invoices == WindowInvoices(ledger, ws, createdAt, k)
      invariant TimesInvoiced(invoices, i) == Once(ledger[i], ws, createdAt, WindowStart(createdAt, k))
    {
      var more := WindowInvoice(ledger, ws, createdAt, k);
      TimesToNext(ledger, ws, createdAt, k, i, invoices);
      WindowsSnoc(ledger, ws, createdAt, k);
      k, invoices := k + 1, invoices + more;
    }
  }

  lemma {:induction false} LedgersGrow(s: State, ws: string, events: seq<Event>, more: seq<Event>)
    ensures After(s, ws, events).ledger <= After(s, ws, events + more).ledger
    ensures Timely(s, ws, events) <= Timely(s, ws, events + more)
    decreases |more|
  {
    if more == [] {
      assert events + more == events;
    } else {
      var init := more[..|more| - 1];
      assert (events + more)[..|events + more| - 1] == events + init;
      LedgersGrow(s, ws, events, init);
    }
  }

  lemma AsLong(s: State, ws: string, events: seq<Event>)
    ensures |Timely(s, ws, events)| == |After(s, ws, events).ledger|
  {
  }

  /** Where a posting stands in the two ledgers ever after. */
  lemma PostedRow(s: State, ws: string, before: seq<Event>, e: Event, after: seq<Event>)
    requires e.Posted?
    ensures var events, i := before + [e] + after, |After(s, ws, before).ledger|;
            && i < |After(s, ws, events).ledger| && After(s, ws, events).ledger[i] == e.entry
            && i < |Timely(s, ws, events)|
            && Timely(s, ws, events)[i] == if Misses(After(s, ws, before), ws, e) then Blank(e.entry) else e.entry
  {
    assert (before + [e])[..|before + [e]| - 1] == before;
    AsLong(s, ws, before);
    LedgersGrow(s, ws, before + [e], after);
  }

  lemma TimesOver(s: State, timely: seq<Entry>, ws: string, i: nat)
    requires ExactOver(s, timely, ws) && i < |timely|
    ensures TimesInvoiced(s.stripe, i) == TimesInvoiced(s.local, i)
         == if InWindow(timely[i], ws, s.createdAt, Pointer(s)) then 1 else 0
  {
    TimesInWindows(timely, ws, s.createdAt, Index(s.createdAt, Pointer(s)), i);
  }

  /** Over every run in which no attempt strays, once the window of a charge has been passed: the charge is in exactly
      one invoice, at Stripe and locally, if and only if it was not stamped before the pointer when it was posted, and
      otherwise in none. */
  lemma ChargeIsInvoicedIff(s: State, ws: string, before: seq<Event>, e: Event, after: seq<Event>)
    requires IsRun(s, before + [e] + after) && NoneStrays(s, ws, before + [e] + after) && e.Posted?
    requires InWindow(e.entry, ws, s.createdAt, Pointer(After(s, ws, before + [e] + after)))
    ensures var r, i := After(s, ws, before + [e] + after), |After(s, ws, before).ledger|;
            && i < |r.ledger| && r.ledger[i] == e.entry
            && TimesInvoiced(r.stripe, i) == TimesInvoiced(r.local, i)
               == if e.entry.at >= Pointer(After(s, ws, before)) then 1 else 0
  {
    var events := before + [e] + after;
    PostedRow(s, ws, before, e, after);
    InvoicesAreOfTimelyCharges(s, ws, events);
    SameCreation(s, ws, before);
    TimesOver(After(s, ws, events), Timely(s, ws, events), ws, |After(s, ws, before).ledger|);
  }

  lemma {:induction false} SameCreation(s: State, ws: string, events: seq<Event>)
    ensures After(s, ws, events).createdAt == s.createdAt
    decreases |events|
  {
    if events != [] { SameCreation(s, ws, events[..|events| - 1]); }
  }

  // ---- All charges ----

  function TotalCharged(invoices: seq<Invoice>): nat {
    if invoices == [] then 0 else TotalCharged(invoices[..|invoices| - 1]) + invoices[|invoices| - 1].charged
  }

  lemma ChargedSum(invoices: seq<Invoice>, more: seq<Invoice>)
    requires |more| <= 1
    ensures TotalCharged(invoices + more) == TotalCharged(invoices) + if |more| == 1 then more[0].charged else 0
  {
    if more == [] {
      assert invoices + more == invoices;
    } else {
      assert (invoices + more)[..|invoices + more| - 1] == invoices;
    }
  }

  lemma ChargedToNext(ledger: seq<Entry>, ws: string, createdAt: int, n: nat, invoices: seq<Invoice>)
    requires TotalCharged(invoices) == Charges(ledger, ws, createdAt, WindowStart(createdAt, n))
    ensures TotalCharged(invoices + WindowInvoice(ledger, ws, createdAt, n))
         == Charges(ledger, ws, createdAt, WindowStart(createdAt, n + 1))
  {
    var more := WindowInvoice(ledger, ws, createdAt, n);
    NextWindow(createdAt, n);
    ChargesToNext(ledger, ws, createdAt, n);
    ChargedSum(invoices, more);
  }

  lemma {:induction false} WindowsAddUp(ledger: seq<Entry>, ws: string, createdAt: int, n: nat)
    ensures TotalCharged(WindowInvoices(ledger, ws, createdAt, n))
         == Charges(ledger, ws, createdAt, WindowStart(createdAt, n))
  {
    var k, invoices := 0, WindowInvoices(ledger, ws, createdAt, 0);
    NothingInNoWindow(ledger, ws, createdAt);
    while k < n
      invariant k <= n && invoices == WindowInvoices(ledger, ws, createdAt, k)
      invariant TotalCharged(invoices) == Charges(ledger, ws, createdAt, WindowStart(createdAt, k))
    {
      var more := WindowInvoice(ledger, ws, createdAt, k);
      ChargedToNext(ledger, ws, createdAt, k, invoices);
      WindowsSnoc(ledger, ws, createdAt, k);
      k, invoices := k + 1, invoices + more;
    }
  }

  lemma {:induction false} AllTimelyIff(s: State, ws: string, events: seq<Event>)
    ensures Timely(s, ws, events) == After(s, ws, events).ledger <==> NoneMisses(s, ws, events)
    decreases |events|
  {
    if events != [] {
      var init, e := events[..|events| - 1], events[|events| - 1];
      AllTimelyIff(s, ws, init);
      AsLong(s, ws, init);
      if e.Posted? {
        var a, b := Timely(s, ws, events), After(s, ws, events).ledger;
        assert a[..|a| - 1] == Timely(s, ws, init) && b[..|b| - 1] == After(s, ws, init).ledger;
        assert Misses(After(s, ws, init), ws, e) ==> Blank(e.entry) != e.entry;
      }
    }
  }

  lemma TimelyInWindowIff(ledger: seq<Entry>, timely: seq<Entry>, ws: string, createdAt: int, t: int)
    requires Agrees(ledger, timely, ws, createdAt, t)
    ensures (forall i: nat {:trigger ledger[i]} :: i < |ledger| && InWindow(ledger[i], ws, createdAt, t)
               ==> timely[i] == ledger[i]) <==> timely == ledger
  {
    forall i: nat | i < |ledger| ensures timely[i] == ledger[i] || InWindow(ledger[i], ws, createdAt, t) {
      assert AgreesAt(ledger[i], timely[i], ws, createdAt, t);
    }
  }

  lemma BlankedStaysWhole(ledger: seq<Entry>, timely: seq<Entry>, ws: string, createdAt: int, t: int)
    requires Agrees(ledger, timely, ws, createdAt, t) && WholeCents(ledger)
    ensures WholeCents(timely)
  {
    forall k | 0 <= k < |timely| ensures IsWholeCents(timely[k].posting) {
      assert AgreesAt(ledger[k], timely[k], ws, createdAt, t) && IsWholeCents(ledger[k].posting);
    }
  }

  /** Over every run in which no attempt strays, the invoices cover the timely charges before the pointer, up to less
      than a cent per invoice. To the micro-credit their sums are all that is charged before the pointer if and only if
      no charge was posted behind it. */
  lemma InvoicesCoverTheCharges(s: State, ws: string, events: seq<Event>)
    requires IsRun(s, events) && NoneStrays(s, ws, events)
    ensures var r, timely := After(s, ws, events), Timely(s, ws, events);
            && (WholeCents(r.ledger) ==> Covers(r.stripe, Charges(timely, ws, s.createdAt, Pointer(r))))
            && (NoneMisses(s, ws, events) <==> timely == r.ledger)
            && TotalCharged(r.stripe) == TotalCharged(r.local) == Charges(timely, ws, s.createdAt, Pointer(r))
            && (TotalCharged(r.stripe) == Charges(r.ledger, ws, s.createdAt, Pointer(r))
                <==> NoneMisses(s, ws, events))
  {
    var r, timely := After(s, ws, events), Timely(s, ws, events);
    InvoicesAreOfTimelyCharges(s, ws, events);
    if WholeCents(r.ledger) {
      BlankedStaysWhole(r.ledger, timely, ws, s.createdAt, Pointer(r));
      ExactCovers(r, timely, ws);
    }
    WindowsAddUp(timely, ws, s.createdAt, Index(s.createdAt, Pointer(r)));
    SumIsLessIff(r.ledger, timely, ws, s.createdAt, Pointer(r), s.createdAt, Pointer(r));
    TimelyInWindowIff(r.ledger, timely, ws, s.createdAt, Pointer(r));
    AllTimelyIff(s, ws, events);
  }

  // ---- A charge that is never invoiced ----

  /** A charge stamped in a window and posted when the pointer has passed it: the window has 50,000 micro-credits of
      charges and no invoice. */
  lemma LateChargeIsNotInvoiced()
    ensures var s := State([], 0, None, [], [], map[]);
            var events := [Read(1, MONTH), Finish(1, MONTH, Succeeds), Posted(CHARGE, MONTH)];
            var r := After(s, "w", events);
            && r == s.(ledger := [CHARGE], lastInvoice := Some(MONTH))
            && Charges(r.ledger, "w", 0, MONTH) == 50_000 && Pointer(r) == MONTH
  {
    var s := State([], 0, None, [], [], map[]);
    var a, b, c := Read(1, MONTH), Finish(1, MONTH, Succeeds), Posted(CHARGE, MONTH);
    AfterSnoc(s, "w", [], a);
    AfterSnoc(s, "w", [a], b);
    AfterSnoc(s, "w", [a, b], c);
    DisplaysGrow(a, b, c, c);
    ChargedFiveCents();
  }
}
