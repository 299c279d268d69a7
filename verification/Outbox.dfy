/** The transactional outbox (crates/api/src/outbox.rs): committed events wait in a table, a poller hands them to
    the message stream oldest first, stop and delete cancel them, and a purge drops stale ones. */
module Outbox {
  import opened Prelude

  datatype Payload = Provision(service: string) | Deprovision(service: string) | Suspend(workspace: string)

  datatype Row = Row(id: nat, createdAt: int, payload: Payload)

  predicate Concerns(row: Row, service: string) {
    row.payload == Provision(service) || row.payload == Deprovision(service)
  }

  /** The table and the stream, and for each committed event how it left the table: deleted by a committed poll
      (`acked`), or by a cancellation or a purge (`dropped`). */
  datatype State = State(table: set<Row>, published: seq<Row>, enqueued: set<Row>, acked: set<Row>,
                         dropped: set<Row>, nextId: nat)

  /** What the publish of one row did: acknowledged, or failed with or without having reached the stream. */
  datatype Publish = Acked | Failed(delivered: bool)

  datatype Op =
    | Enqueue(payload: Payload, now: int)
    | Poll(rows: seq<Row>, results: seq<Publish>, locked: set<Row>, limit: nat, commits: bool)
    | Cancel(service: string)
    | Purge(cutoff: int)

  function Start(): State { State({}, [], {}, {}, {}, 0) }

  /** The result of the poller's SELECT: the oldest unlocked rows, at most `limit`, in created_at order. */
  ghost predicate IsSelection(rows: seq<Row>, table: set<Row>, locked: set<Row>, limit: nat) {
    && Distinct(rows) && |rows| <= limit
    && (forall r :: r in rows ==> r in table && r !in locked)
    && (forall i, j :: 0 <= i < j < |rows| ==> rows[i].createdAt <= rows[j].createdAt)
    && (forall r, q :: r in table && r !in locked && r !in rows && q in rows ==> q.createdAt <= r.createdAt)
    && (forall r :: r in table && r !in locked && r !in rows ==> |rows| == limit)
  }

  /** The rows that reach the stream: up to the first failed publish, which ends the loop. */
  function Delivered(rows: seq<Row>, results: seq<Publish>): (r: seq<Row>)
    requires |rows| == |results|
    ensures r <= rows
  {
    if rows == [] then []
    else match results[0]
      case Acked => [rows[0]] + Delivered(rows[1..], results[1..])
      case Failed(delivered) => if delivered then [rows[0]] else []
  }

  predicate Succeeds(op: Op)
    requires op.Poll?
  {
    op.commits && forall r :: r in op.results ==> r == Acked
  }

  function Rows(rows: seq<Row>): set<Row> { set r | r in rows }

  ghost predicate Enabled(s: State, op: Op) {
    op.Poll? ==> |op.rows| == |op.results| && IsSelection(op.rows, s.table, op.locked, op.limit)
  }

  function Step(s: State, op: Op): State
    requires op.Poll? ==> |op.rows| == |op.results|
  {
    match op
    case Enqueue(payload, now) =>
      var row := Row(s.nextId, now, payload);
      s.(table := s.table + {row}, enqueued := s.enqueued + {row}, nextId := s.nextId + 1)
    case Poll(rows, results, _, _, _) =>
      var settled := if Succeeds(op) then Rows(rows) else {};
      s.(published := s.published + Delivered(rows, results), table := s.table - settled,
         acked := s.acked + settled)
    case Cancel(service) =>
      var gone := set r | r in s.table && Concerns(r, service);
      s.(table := s.table - gone, dropped := s.dropped + gone)
    case Purge(cutoff) =>
      var gone := set r | r in s.table && r.createdAt < cutoff;
      s.(table := s.table - gone, dropped := s.dropped + gone)
  }

  /** `s'` is reached from `s` by these operations, each possible where it happens. */
  ghost predicate Reaches(s: State, ops: seq<Op>, s': State)
    decreases |ops|
  {
    if ops == [] then s == s' else Enabled(s, ops[0]) && Reaches(Step(s, ops[0]), ops[1..], s')
  }

  // ---- At least once: no committed event is lost, and none is invented ----

  lemma {:induction false} SuccessDeliversAll(rows: seq<Row>, results: seq<Publish>)
    requires |rows| == |results| && forall r :: r in results ==> r == Acked
    ensures Delivered(rows, results) == rows
  {
    if rows != [] {
      assert results[0] in results;
      assert forall r :: r in results[1..] ==> r in results;
      SuccessDeliversAll(rows[1..], results[1..]);
    }
  }

  /** Every committed event is in exactly one place: still in the table, deleted after a publish, or dropped by a
      cancellation or a purge; what the poller deleted it had published, and it published nothing else than
      committed events. Rows have distinct ids below the next one. */
  ghost predicate Accounted(s: State) {
    && s.enqueued == s.table + s.acked + s.dropped
    && s.table !! s.acked !! s.dropped
    && s.acked <= Rows(s.published) <= s.enqueued
    && (forall r :: r in s.enqueued ==> r.id < s.nextId)
    && (forall q, r :: q in s.enqueued && r in s.enqueued && q.id == r.id ==> q == r)
  }

  lemma StepKeepsAccounts(s: State, op: Op)
    requires Accounted(s) && Enabled(s, op)
    ensures Accounted(Step(s, op))
  {
    if op.Poll? {
      var delivered := Delivered(op.rows, op.results);
      assert Rows(s.published + delivered) == Rows(s.published) + Rows(delivered);
      if Succeeds(op) { SuccessDeliversAll(op.rows, op.results); }
    }
  }

  lemma {:induction false} RunKeepsAccounts(s: State, ops: seq<Op>, s': State)
    requires Accounted(s) && Reaches(s, ops, s')
    ensures Accounted(s') && s.published <= s'.published
    decreases |ops|
  {
    if ops != [] {
      StepKeepsAccounts(s, ops[0]);
      RunKeepsAccounts(Step(s, ops[0]), ops[1..], s');
    }
  }

  // ---- Who leaves the table ----

  /** A committed poll that published everything takes out its rows, a cancellation the events of one service, and a
      purge the rows stamped before its cutoff. */
  predicate TakesOut(op: Op, r: Row) {
    match op
    case Enqueue(_, _) => false
    case Poll(rows, results, _, _, commits) => commits && r in rows && forall x :: x in results ==> x == Acked
    case Cancel(service) => r.payload in {Provision(service), Deprovision(service)}
    case Purge(cutoff) => r.createdAt < cutoff
  }

  lemma StepTakesOutIff(s: State, op: Op, r: Row)
    requires Enabled(s, op) && r in s.table
    ensures r !in Step(s, op).table <==> TakesOut(op, r)
  {
  }

  lemma {:induction false} StaysOut(s: State, ops: seq<Op>, s': State, r: Row)
    requires Accounted(s) && Reaches(s, ops, s') && r in s.enqueued && r !in s.table
    ensures r !in s'.table
    decreases |ops|
  {
    if ops != [] {
      StepKeepsAccounts(s, ops[0]);
      StaysOut(Step(s, ops[0]), ops[1..], s', r);
    }
  }

  /** Over every run, an event waits until an operation that takes it out: rows of other services survive every
      cancellation, and younger ones every purge. */
  lemma {:induction false} WaitsUntilTakenOutIff(s: State, ops: seq<Op>, s': State, r: Row)
    requires Accounted(s) && Reaches(s, ops, s') && r in s.table
    ensures r in s'.table <==> forall k :: 0 <= k < |ops| ==> !TakesOut(ops[k], r)
    decreases |ops|
  {
    if ops != [] {
      var m := Step(s, ops[0]);
      StepKeepsAccounts(s, ops[0]);
      StepTakesOutIff(s, ops[0], r);
      if r in m.table {
        WaitsUntilTakenOutIff(m, ops[1..], s', r);
        assert forall k :: 0 < k < |ops| ==> ops[k] == ops[1..][k - 1];
      } else {
        StaysOut(m, ops[1..], s', r);
      }
    }
  }

  lemma DrainStep(s: State, op: Op)
    requires op.Poll? && Enabled(s, op) && Succeeds(op) && op.locked == {}
    ensures |Step(s, op).table| == Drained(|s.table|, 1, op.limit)
  {
    SelectionSize(op.rows, s.table, op.limit);
  }

  function Drained(size: nat, polls: nat, limit: nat): nat {
    if polls == 0 then size else Drained(if size <= limit then 0 else size - limit, polls - 1, limit)
  }

  lemma {:induction false} DrainedInClosedForm(size: nat, polls: nat, limit: nat)
    ensures Drained(size, polls, limit) == if size <= polls * limit then 0 else size - polls * limit
  {
    if polls > 0 {
      DrainedInClosedForm(if size <= limit then 0 else size - limit, polls - 1, limit);
      assert polls * limit == limit + (polls - 1) * limit;
    }
  }

  /** Polls of one size, without competing locks, that all succeed. */
  predicate ArePolls(ops: seq<Op>, limit: nat) {
    ops == [] || (IsGoodPoll(ops[0], limit) && ArePolls(ops[1..], limit))
  }

  predicate IsGoodPoll(op: Op, limit: nat) { op.Poll? && Succeeds(op) && op.limit == limit && op.locked == {} }

  lemma DrainedAdds(size: nat, polls: nat, limit: nat)
    ensures Drained(Drained(size, 1, limit), polls, limit) == Drained(size, polls + 1, limit)
  {
  }

  lemma FirstPollDrains(s: State, ops: seq<Op>, s': State, limit: nat)
    requires ops != [] && Reaches(s, ops, s') && ArePolls(ops, limit)
    ensures Reaches(Step(s, ops[0]), ops[1..], s') && ArePolls(ops[1..], limit)
    ensures |Step(s, ops[0]).table| == Drained(|s.table|, 1, limit)
  {
    DrainStep(s, ops[0]);
  }

  lemma {:induction false} PollsDrain(s: State, ops: seq<Op>, s': State, limit: nat)
    requires Reaches(s, ops, s') && ArePolls(ops, limit)
    ensures |s'.table| == Drained(|s.table|, |ops|, limit)
    decreases |ops|
  {
    if ops != [] {
      FirstPollDrains(s, ops, s', limit);
      PollsDrain(Step(s, ops[0]), ops[1..], s', limit);
      DrainedAdds(|s.table|, |ops| - 1, limit);
    }
  }

  lemma {:induction false} PollsDropNothing(s: State, ops: seq<Op>, s': State, limit: nat)
    requires Reaches(s, ops, s') && ArePolls(ops, limit)
    ensures s'.enqueued == s.enqueued && s'.dropped == s.dropped
    decreases |ops|
  {
    if ops != [] { PollsDropNothing(Step(s, ops[0]), ops[1..], s', limit); }
  }

  /** Between accounted states that differ in no drop and no commit, what waited still waits or was published. */
  lemma WaitingOrPublished(s: State, s': State)
    requires Accounted(s) && Accounted(s') && s'.enqueued == s.enqueued && s'.dropped == s.dropped
    ensures s.table <= s'.table + Rows(s'.published)
  {
  }

  /** Progress: polls that succeed empty the table at `limit` rows a poll, and every event that was waiting is
      then still waiting or published. */
  lemma SuccessfulPollsDrain(s: State, ops: seq<Op>, s': State, limit: nat)
    requires Accounted(s) && Reaches(s, ops, s')
    requires ArePolls(ops, limit)
    ensures |s'.table| == if |s.table| <= |ops| * limit then 0 else |s.table| - |ops| * limit
    ensures s.table <= s'.table + Rows(s'.published)
  {
    PollsDrain(s, ops, s', limit);
    PollsDropNothing(s, ops, s', limit);
    RunKeepsAccounts(s, ops, s');
    WaitingOrPublished(s, s');
    DrainedInClosedForm(|s.table|, |ops|, limit);
  }

  /** Polls that all fail somewhere, whatever they publish before that. */
  predicate AreFailedPolls(ops: seq<Op>) {
    ops == [] || (ops[0].Poll? && !Succeeds(ops[0]) && AreFailedPolls(ops[1..]))
  }

  lemma {:induction false} FailedPollsLeaveTable(s: State, ops: seq<Op>, s': State)
    requires Reaches(s, ops, s') && AreFailedPolls(ops)
    ensures s' == s.(published := s'.published)
    decreases |ops|
  {
    if ops != [] { FailedPollsLeaveTable(Step(s, ops[0]), ops[1..], s'); }
  }

  /** Failures only delay: after any number of failed polls, successful ones drain the table at the same rate as if none
      had failed, and what was waiting before the failures is then still waiting or published. */
  lemma FailedPollsOnlyDelay(s: State, failed: seq<Op>, m: State, ops: seq<Op>, s': State, limit: nat)
    requires Accounted(s) && Reaches(s, failed, m) && AreFailedPolls(failed)
    requires Reaches(m, ops, s') && ArePolls(ops, limit)
    ensures |s'.table| == if |s.table| <= |ops| * limit then 0 else |s.table| - |ops| * limit
    ensures s.table <= s'.table + Rows(s'.published)
  {
    FailedPollsLeaveTable(s, failed, m);
    RunKeepsAccounts(s, failed, m);
    SuccessfulPollsDrain(m, ops, s', limit);
  }

  lemma {:induction false} CountRows(rows: seq<Row>)
    requires Distinct(rows)
    ensures |Rows(rows)| == |rows|
  {
    if rows != [] {
      var last := rows[|rows| - 1];
      assert rows == rows[..|rows| - 1] + [last];
      CountRows(rows[..|rows| - 1]);
      assert last !in rows[..|rows| - 1];
      assert Rows(rows) == Rows(rows[..|rows| - 1]) + {last};
    }
  }

  lemma SelectionSize(rows: seq<Row>, table: set<Row>, limit: nat)
    requires IsSelection(rows, table, {}, limit)
    ensures |table - Rows(rows)| == if |table| <= limit then 0 else |table| - limit
  {
    CountRows(rows);
    assert Rows(rows) <= table;
    assert |table - Rows(rows)| == |table| - |rows|;
    if table - Rows(rows) != {} {
      var r :| r in table - Rows(rows);
      assert r !in rows;
    }
  }

  lemma SelectionCount(rows: seq<Row>, table: set<Row>, locked: set<Row>, limit: nat)
    requires IsSelection(rows, table, locked, limit)
    ensures |Rows(rows)| == |rows| && Rows(rows) <= table - locked
    ensures |rows| == if |table - locked| <= limit then |table - locked| else limit
  {
    CountRows(rows);
    assert |table - locked - Rows(rows)| == |table - locked| - |rows|;
    if table - locked - Rows(rows) != {} {
      var r :| r in table - locked - Rows(rows);
      assert r !in rows;
    }
  }

  /** Two pollers at once, of which the second skips what the first has locked, take different rows, and together the
      oldest `2 * limit` of the table. */
  lemma TwoPollersShareTheOldest(a: seq<Row>, b: seq<Row>, table: set<Row>, limit: nat)
    requires IsSelection(a, table, {}, limit) && IsSelection(b, table, Rows(a), limit)
    ensures Rows(a) !! Rows(b) && Rows(a) + Rows(b) <= table
    ensures |Rows(a) + Rows(b)| == if |table| <= 2 * limit then |table| else 2 * limit
    ensures forall q, r :: q in Rows(a) + Rows(b) && r in table - Rows(a) - Rows(b) ==> q.createdAt <= r.createdAt
  {
    SelectionCount(a, table, {}, limit);
    SelectionCount(b, table, Rows(a), limit);
    assert table - {} == table;
    assert |table - Rows(a)| == |table| - |a|;
    assert |Rows(a) + Rows(b)| == |a| + |b|;
  }

  // ---- Order: with one poller, first publications happen in created_at order ----

  /** The first publication of each event, in order. */
  function FirstOnly(published: seq<Row>): seq<Row> {
    if published == [] then []
    else
      var init, last := published[..|published| - 1], published[|published| - 1];
      if last in init then FirstOnly(init) else FirstOnly(init) + [last]
  }

  ghost predicate InOrder(rows: seq<Row>) {
    forall i, j :: 0 <= i < j < |rows| ==> rows[i].createdAt <= rows[j].createdAt
  }

  /** First publications so far are in order, and no event that still waits for its first one is older. */
  ghost predicate Ordered(s: State) {
    && InOrder(FirstOnly(s.published))
    && (forall p, r :: p in s.published && r in s.table && r !in s.published ==> p.createdAt <= r.createdAt)
  }

  /** The operation respects the assumptions: one poller with no competing locks, and no commit with a stamp older
      than an event already published. */
  ghost predicate Timely(s: State, op: Op) {
    && (op.Poll? ==> op.locked == {})
    && (op.Enqueue? ==> forall r :: r in s.published ==> r.createdAt <= op.now)
  }

  /** A run of such operations. */
  ghost predicate ReachesTimely(s: State, ops: seq<Op>, s': State)
    decreases |ops|
  {
    if ops == [] then s == s'
    else Enabled(s, ops[0]) && Timely(s, ops[0]) && ReachesTimely(Step(s, ops[0]), ops[1..], s')
  }

  lemma {:induction false} FirstOnlyElements(published: seq<Row>)
    ensures forall r :: r in FirstOnly(published) <==> r in published
  {
    if published != [] {
      assert published == published[..|published| - 1] + [published[|published| - 1]];
      FirstOnlyElements(published[..|published| - 1]);
    }
  }

  lemma PublishOne(published: seq<Row>, last: Row)
    requires InOrder(FirstOnly(published))
    requires last !in published ==> forall p :: p in published ==> p.createdAt <= last.createdAt
    ensures InOrder(FirstOnly(published + [last]))
  {
    assert (published + [last])[..|published|] == published;
    FirstOnlyElements(published);
  }

  /** No event that still waits for its first publication is older than one that was published. */
  ghost predicate NoneOlderWaits(published: seq<Row>, table: set<Row>) {
    forall p, r :: p in published && r in table && r !in published ==> p.createdAt <= r.createdAt
  }

  /** `row` is as old as any event that will still wait after it. */
  ghost predicate IsNext(published: seq<Row>, row: Row, table: set<Row>) {
    row in table && forall r :: r in table && r !in published && r != row ==> row.createdAt <= r.createdAt
  }

  lemma PublishNext(published: seq<Row>, row: Row, table: set<Row>)
    requires InOrder(FirstOnly(published)) && NoneOlderWaits(published, table) && IsNext(published, row, table)
    ensures InOrder(FirstOnly(published + [row])) && NoneOlderWaits(published + [row], table)
  {
    PublishOne(published, row);
  }

  /** `more` is a batch in order, taken from what is oldest in the table. */
  ghost predicate IsNextBatch(published: seq<Row>, more: seq<Row>, table: set<Row>) {
    && InOrder(more) && (forall r :: r in more ==> r in table)
    && forall q, r :: q in more && r in table && r !in more && r !in published ==> q.createdAt <= r.createdAt
  }

  lemma FirstOfBatch(published: seq<Row>, more: seq<Row>, table: set<Row>)
    requires IsNextBatch(published, more, table) && more != []
    ensures IsNext(published, more[0], table) && IsNextBatch(published + [more[0]], more[1..], table)
  {
    assert more == [more[0]] + more[1..];
    forall r | r in table && r !in published && r != more[0] ensures more[0].createdAt <= r.createdAt {
      if r in more { var i :| 0 <= i < |more| && more[i] == r; }
    }
  }

  lemma HeadThenTail(published: seq<Row>, more: seq<Row>)
    requires more != []
    ensures published + [more[0]] + more[1..] == published + more
  {
  }

  lemma {:induction false} PublishingKeepsOrder(published: seq<Row>, more: seq<Row>, table: set<Row>)
    requires InOrder(FirstOnly(published)) && NoneOlderWaits(published, table) && IsNextBatch(published, more, table)
    ensures InOrder(FirstOnly(published + more)) && NoneOlderWaits(published + more, table)
    decreases |more|
  {
    if more == [] {
      assert published + more == published;
    } else {
      FirstOfBatch(published, more, table);
      PublishNext(published, more[0], table);
      PublishingKeepsOrder(published + [more[0]], more[1..], table);
      HeadThenTail(published, more);
    }
  }

  /** What reaches the stream is again a selection's beginning: older than everything it leaves behind. */
  lemma DeliveredAreOldest(rows: seq<Row>, results: seq<Publish>, table: set<Row>, limit: nat)
    requires |rows| == |results| && IsSelection(rows, table, {}, limit)
    ensures var d := Delivered(rows, results);
            && InOrder(d) && (forall r :: r in d ==> r in table)
            && forall q, r :: q in d && r in table && r !in d ==> q.createdAt <= r.createdAt
  {
    var d := Delivered(rows, results);
    forall q, r | q in d && r in table && r !in d ensures q.createdAt <= r.createdAt {
      if r in rows {
        var i :| 0 <= i < |d| && d[i] == q;
        var j :| 0 <= j < |rows| && rows[j] == r;
        assert d == rows[..|d|];
        assert rows[i] == q && i < |d| <= j;
      }
    }
  }

  lemma StepKeepsOrder(s: State, op: Op)
    requires Accounted(s) && Ordered(s) && Enabled(s, op) && Timely(s, op)
    ensures Ordered(Step(s, op))
  {
    if op.Poll? {
      var d := Delivered(op.rows, op.results);
      DeliveredAreOldest(op.rows, op.results, s.table, op.limit);
      PublishingKeepsOrder(s.published, d, s.table);
    } else if op.Enqueue? {
      assert forall p :: p in s.published ==> p in Rows(s.published);
    }
  }

  /** Under one poller and timely commits, first publications form a created_at-ordered sequence, despite
      any pattern of failures and duplicates. */
  lemma {:induction false} FirstPublicationsAreOrdered(s: State, ops: seq<Op>, s': State)
    requires Accounted(s) && Ordered(s) && ReachesTimely(s, ops, s')
    ensures InOrder(FirstOnly(s'.published))
    decreases |ops|
  {
    if ops != [] {
      StepKeepsAccounts(s, ops[0]);
      StepKeepsOrder(s, ops[0]);
      FirstPublicationsAreOrdered(Step(s, ops[0]), ops[1..], s');
    }
  }

  // ---- The assumption on commits is exact ----

  /** However the run goes on under the assumptions, first publications are in order. */
  ghost predicate WillBeOrdered(s: State) {
    forall ops, s' :: ReachesTimely(s, ops, s') ==> InOrder(FirstOnly(s'.published))
  }

  lemma {:induction false} OldestOf(table: set<Row>) returns (row: Row)
    requires table != {}
    ensures row in table && forall r :: r in table ==> row.createdAt <= r.createdAt
    decreases |table|
  {
    row :| row in table;
    var rest := table - {row};
    if rest != {} {
      var other := OldestOf(rest);
      if other.createdAt < row.createdAt { row := other; }
    }
  }

  lemma PollOldest(s: State, row: Row) returns (poll: Op)
    requires row in s.table && forall r :: r in s.table ==> row.createdAt <= r.createdAt
    ensures Enabled(s, poll) && Timely(s, poll)
    ensures Step(s, poll) == s.(table := s.table - {row}, published := s.published + [row], acked := s.acked + {row})
  {
    poll := Poll([row], [Acked], {}, 1, true);
    assert Delivered([row], [Acked]) == [row] && Rows([row]) == {row};
  }

  lemma LateIsOutOfOrder(published: seq<Row>, p: Row, late: Row)
    requires p in published && late !in published && late.createdAt < p.createdAt
    ensures !InOrder(FirstOnly(published + [late]))
  {
    assert (published + [late])[..|published|] == published;
    FirstOnlyElements(published);
    var first := FirstOnly(published);
    var i :| 0 <= i < |first| && first[i] == p;
    assert FirstOnly(published + [late])[i] == p && FirstOnly(published + [late])[|first|] == late;
  }

  /** Polls of one row each come to a row that waits, and publish it out of order if a younger one went before. */
  lemma {:induction false} PollsComeToTheLate(s: State, p: Row, late: Row) returns (ops: seq<Op>, s': State)
    requires p in s.published && late in s.table && late !in s.published && late.createdAt < p.createdAt
    ensures ReachesTimely(s, ops, s') && !InOrder(FirstOnly(s'.published))
    decreases |s.table|
  {
    var row := OldestOf(s.table);
    var poll := PollOldest(s, row);
    var m := Step(s, poll);
    if row == late {
      LateIsOutOfOrder(s.published, p, late);
      ops, s' := [poll], m;
      assert ReachesTimely(m, ops[1..], m);
    } else {
      assert |m.table| < |s.table|;
      var more;
      more, s' := PollsComeToTheLate(m, p, late);
      ops := [poll] + more;
      assert ops[1..] == more;
    }
  }

  /** A commit is followed by first publications in order, however the run goes on under the assumptions, if and only
      if its stamp is not older than that of an event already published. */
  lemma EnqueueKeepsOrderIff(s: State, payload: Payload, now: int)
    requires Accounted(s) && Ordered(s)
    ensures WillBeOrdered(Step(s, Enqueue(payload, now))) <==> Timely(s, Enqueue(payload, now))
  {
    var m := Step(s, Enqueue(payload, now));
    if Timely(s, Enqueue(payload, now)) {
      StepKeepsAccounts(s, Enqueue(payload, now));
      StepKeepsOrder(s, Enqueue(payload, now));
      forall ops, s' | ReachesTimely(m, ops, s') ensures InOrder(FirstOnly(s'.published)) {
        FirstPublicationsAreOrdered(m, ops, s');
      }
    } else {
      var p :| p in s.published && now < p.createdAt;
      assert Row(s.nextId, now, payload) !in Rows(s.published);
      var ops, s' := PollsComeToTheLate(m, p, Row(s.nextId, now, payload));
    }
  }

  lemma {:induction false} ReachesAppend(s: State, ops: seq<Op>, m: State, more: seq<Op>, s': State)
    requires Reaches(s, ops, m) && Reaches(m, more, s')
    ensures Reaches(s, ops + more, s')
    decreases |ops|
  {
    if ops == [] {
      assert ops + more == more;
    } else {
      assert (ops + more)[1..] == ops[1..] + more;
      ReachesAppend(Step(s, ops[0]), ops[1..], m, more, s');
    }
  }

  lemma EnqueueThenPoll(s: State, payload: Payload, now: int) returns (ops: seq<Op>, s': State)
    requires s.table == {}
    ensures Reaches(s, ops, s') && s'.table == {} && s'.nextId == s.nextId + 1
    ensures s'.published == s.published + [Row(s.nextId, now, payload)]
  {
    var row := Row(s.nextId, now, payload);
    var poll := Poll([row], [Acked], {}, 50, true);
    ops := [Enqueue(payload, now), poll];
    var m := Step(s, ops[0]);
    s' := Step(m, poll);
    assert m.table == {row} && IsSelection([row], m.table, {}, 50);
    assert Delivered([row], [Acked]) == [row] && Rows([row]) == {row};
    assert ops[1..] == [poll] && [poll][1..] == [];
    assert Reaches(s', [], s') && Reaches(m, [poll], s');
  }

  /** The stamp-order assumption is needed: `created_at` is the start of a transaction, and one that commits late
      is published after younger events. */
  lemma LateCommitIsPublishedOutOfOrder(payload: Payload)
    ensures exists ops, s' :: Reaches(Start(), ops, s') && !InOrder(FirstOnly(s'.published))
  {
    var ops, m := EnqueueThenPoll(Start(), payload, 5);
    var more, s' := EnqueueThenPoll(m, payload, 3);
    ReachesAppend(Start(), ops, m, more, s');
    var a, b := Row(0, 5, payload), Row(1, 3, payload);
    assert m.published == [a] && s'.published == [a, b];
    assert [a, b][..1] == [a] && [a][..0] == [];
    assert FirstOnly([]) == [] && FirstOnly([a]) == [a] && FirstOnly([a, b]) == [a, b];
    assert [a, b][0].createdAt == 5 && [a, b][1].createdAt == 3;
  }

  lemma {:induction false} StopsAtFailure(rows: seq<Row>, results: seq<Publish>, i: nat)
    requires |rows| == |results| && i < |rows|
    requires (forall k :: 0 <= k < i ==> results[k] == Acked) && results[i].Failed?
    ensures Delivered(rows, results) == if results[i].delivered then rows[..i] + [rows[i]] else rows[..i]
  {
    if i > 0 {
      StopsAtFailure(rows[1..], results[1..], i - 1);
      assert rows[..i] == [rows[0]] + rows[1..][..i - 1];
    }
  }

  // ---- The code ----

  class OutboxTable {
    var table: set<Row>
    var published: seq<Row>
    var nextId: nat
    ghost var model: State

    ghost predicate Valid()
      reads this
    {
      table == model.table && published == model.published && nextId == model.nextId && Accounted(model)
    }

    constructor ()
      ensures Valid() && model == Start()
    {
      table, published, nextId := {}, [], 0;
      model := Start();
    }

    /** INSERT INTO outbox. */
    method Insert(payload: Payload, now: int)
      requires Valid()
      modifies this
      ensures Valid() && model == Step(old(model), Enqueue(payload, now))
    {
      table := table + {Row(nextId, now, payload)};
      nextId := nextId + 1;
      StepKeepsAccounts(model, Enqueue(payload, now));
      model := Step(model, Enqueue(payload, now));
    }

    /** DELETE FROM outbox WHERE payload->>'service_id' = service. */
    method DeleteFor(service: string)
      requires Valid()
      modifies this
      ensures Valid() && model == Step(old(model), Cancel(service))
      ensures forall r :: r in table <==>
                r in old(table) && r.payload != Provision(service) && r.payload != Deprovision(service)
    {
      table := set r | r in table && !Concerns(r, service);
      StepKeepsAccounts(model, Cancel(service));
      model := Step(model, Cancel(service));
    }

    method CleanupStale(cutoff: int)
      requires Valid()
      modifies this
      ensures Valid() && model == Step(old(model), Purge(cutoff))
      ensures forall r :: r in table <==> r in old(table) && cutoff <= r.createdAt
    {
      table := set r | r in table && !(r.createdAt < cutoff);
      StepKeepsAccounts(model, Purge(cutoff));
      model := Step(model, Purge(cutoff));
    }

    /** The publish loop: it ends at the first failure, and what reached the stream stays there. */
    method Publish(rows: seq<Row>, results: seq<Publish>) returns (ok: bool, ids: seq<nat>)
      requires |rows| == |results|
      modifies this`published
      ensures published == old(published) + Delivered(rows, results)
      ensures ok <==> forall r :: r in results ==> r == Acked
      ensures ok ==> |ids| == |rows| && forall i :: 0 <= i < |rows| ==> ids[i] == rows[i].id
    {
      ids := [];
      for i := 0 to |rows|
        invariant published == old(published) + rows[..i]
        invariant forall k :: 0 <= k < i ==> results[k] == Acked
        invariant |ids| == i && forall k :: 0 <= k < i ==> ids[k] == rows[k].id
      {
        match results[i] {
          case Acked =>
            published := published + [rows[i]];
            ids := ids + [rows[i].id];
          case Failed(delivered) =>
            StopsAtFailure(rows, results, i);
            if delivered { published := published + [rows[i]]; }
            assert results[i] in results;
            return false, [];
        }
      }
      SuccessDeliversAll(rows, results);
      ok := true;
    }

    /** One poll. `rows` is what the SELECT returned; `results` and `commits` say what the stream and the database
        answered. Any failure rolls the transaction back, but cannot take back what was published. */
    method PollOnce(rows: seq<Row>, results: seq<Publish>, ghost locked: set<Row>, ghost limit: nat, commits: bool)
      returns (ok: bool)
      requires Valid() && |rows| == |results| && IsSelection(rows, table, locked, limit)
      modifies this
      ensures Valid() && model == Step(old(model), Poll(rows, results, locked, limit, commits))
      ensures rows != [] ==> (ok <==> Succeeds(Poll(rows, results, locked, limit, commits)))
      ensures !ok ==> table == old(table)
    {
      ghost var op := Poll(rows, results, locked, limit, commits);
      StepKeepsAccounts(model, op);
      ghost var before := model;
      model := Step(model, op);
      if rows == [] {
        assert Rows(rows) == {};
        return true;
      }
      var sent, ids := Publish(rows, results);
      if !sent || !commits {
        return false;
      }
      table := set r | r in table && r.id !in ids;
      IdsIdentify(before, rows, ids);
      return true;
    }
  }

  lemma IdsIdentify(s: State, rows: seq<Row>, ids: seq<nat>)
    requires Accounted(s) && forall r :: r in rows ==> r in s.table
    requires |ids| == |rows| && forall i :: 0 <= i < |rows| ==> ids[i] == rows[i].id
    ensures (set r | r in s.table && r.id !in ids) == s.table - Rows(rows)
  {
    forall r | r in s.table ensures r.id in ids <==> r in rows {
      if r.id in ids {
        var i :| 0 <= i < |ids| && ids[i] == r.id;
        assert rows[i] in s.enqueued && r in s.enqueued;
      }
      if r in rows {
        var i :| 0 <= i < |rows| && rows[i] == r;
        assert ids[i] == r.id;
      }
    }
  }
}
