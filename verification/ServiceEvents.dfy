/** The lifecycle handlers of the API (crates/api/src/routes/services.rs, routes/deployments.rs and
    `enqueue_unsuspend` in billing.rs) over service rows and the outbox. A handler looks at a service in one query and
    commits its changes in a later transaction that does not look again: the two are separate steps here, and anything
    can happen in between. */
module ServiceEvents {
  import opened Prelude
  import Outbox

  datatype Status = Provisioning | Running | Ready | Draining | Stopped | Failed | Suspended | Crashed

  datatype Service = Service(workspace: string, slug: string, status: Status, deleted: bool)

  /** What a handler has made up its mind to commit. A restart, a rollback and a resume all come to `ToProvision`. */
  datatype Plan =
    | ToDeploy(id: string, workspace: string, slug: string)
    | ToDelete(id: string, needsDeprovision: bool)
    | ToProvision(id: string)

  datatype World = World(services: map<string, Service>, box: Outbox.State, plans: map<nat, Plan>)

  /** `request` names a running handler. */
  datatype Op =
    | ReadDeploy(request: nat, id: string, workspace: string, slug: string)
    | ReadDelete(request: nat, id: string)
    | ReadRestart(request: nat, id: string)
    | ReadRollback(request: nat, id: string)
    | ReadUnsuspend(request: nat, id: string)
    | Commit(request: nat, now: int)
    | GiveUp(request: nat)                        // an error, a timeout or a closed connection
    | Stop(id: string, now: int)                  // its transaction repeats its check
    | DaemonReports(id: string, status: Status)   // any status change made by a daemon
    | Suspending(workspace: string, now: int)     // a billing task queues a suspend event
    | DeletesWorkspace(workspace: string)         // the transaction of `delete_workspace`
    | Polling(poll: Outbox.Op)
    | Purging(cutoff: int)

  predicate Live(w: World, id: string) { id in w.services && !w.services[id].deleted }

  predicate SlugIsActive(services: map<string, Service>, workspace: string, slug: string) {
    exists id :: id in services && services[id].workspace == workspace && services[id].slug == slug
              && services[id].status in {Provisioning, Running} && !services[id].deleted
  }

  /** `services.slug` is UNIQUE over all rows (migrations/V1__platform.sql:169): deleted services and other workspaces'
      keep their slugs. */
  predicate SlugIsTaken(services: map<string, Service>, slug: string) {
    exists id :: id in services && services[id].slug == slug
  }

  /** The old services that a deploy of `slug` marks as deleted before it inserts its own. */
  predicate IsReplaced(s: Service, workspace: string, slug: string) {
    s.workspace == workspace && s.slug == slug && !s.deleted && s.status in {Stopped, Failed}
  }

  function Replace(services: map<string, Service>, workspace: string, slug: string): map<string, Service> {
    map id | id in services :: if IsReplaced(services[id], workspace, slug)
                               then services[id].(deleted := true) else services[id]
  }

  predicate NeedsDeprovision(s: Service) { s.status != Stopped && s.status != Failed }

  /** What the handler decides from what it reads; None is a refusal. */
  function Decide(w: World, op: Op): Option<Plan> {
    match op
    case ReadDeploy(_, id, workspace, slug) =>
      if SlugIsActive(w.services, workspace, slug) then None else Some(ToDeploy(id, workspace, slug))
    case ReadDelete(_, id) => if Live(w, id) then Some(ToDelete(id, NeedsDeprovision(w.services[id]))) else None
    case ReadRestart(_, id) =>
      if Live(w, id) && w.services[id].status in {Stopped, Failed} then Some(ToProvision(id)) else None
    case ReadRollback(_, id) => if Live(w, id) then Some(ToProvision(id)) else None
    case ReadUnsuspend(_, id) =>
      if Live(w, id) && w.services[id].status == Suspended then Some(ToProvision(id)) else None
    case _ => None
  }

  predicate IsRead(op: Op) {
    op.ReadDeploy? || op.ReadDelete? || op.ReadRestart? || op.ReadRollback? || op.ReadUnsuspend?
  }

  function SetStatus(services: map<string, Service>, id: string, status: Status): map<string, Service> {
    if id in services then services[id := services[id].(status := status)] else services
  }

  function Enqueue(box: Outbox.State, payload: Outbox.Payload, now: int): Outbox.State {
    Outbox.Step(box, Outbox.Enqueue(payload, now))
  }

  function CancelFor(box: Outbox.State, id: string): Outbox.State { Outbox.Step(box, Outbox.Cancel(id)) }

  /** UPDATE ... SET status = 'stopped', deleted_at = NOW() WHERE id = $1 AND deleted_at IS NULL. */
  function MarkDeleted(services: map<string, Service>, id: string): map<string, Service> {
    if id in services && !services[id].deleted
    then services[id := services[id].(status := Stopped, deleted := true)] else services
  }

  /** UPDATE ... SET status = 'stopped', deleted_at = NOW() WHERE workspace_id = $1 AND deleted_at IS NULL. */
  function MarkAllDeleted(services: map<string, Service>, workspace: string): map<string, Service> {
    map id | id in services :: if services[id].workspace == workspace && !services[id].deleted
                               then services[id].(status := Stopped, deleted := true) else services[id]
  }

  /** The transaction of a plan. A deploy first marks old services of its slug deleted; with one of them there, its
      insert fails and takes that back. The transaction that provisions updates the row by id alone. */
  function Carry(w: World, plan: Plan, now: int): World {
    match plan
    case ToDeploy(id, workspace, slug) =>
      if id in w.services || SlugIsTaken(w.services, slug) then w
      else w.(services := w.services[id := Service(workspace, slug, Provisioning, false)],
              box := Enqueue(w.box, Outbox.Provision(id), now))
    case ToDelete(id, needsDeprovision) =>
      var cancelled := CancelFor(w.box, id);
      w.(services := MarkDeleted(w.services, id),
         box := if needsDeprovision then Enqueue(cancelled, Outbox.Deprovision(id), now) else cancelled)
    case ToProvision(id) =>
      w.(services := SetStatus(w.services, id, Provisioning), box := Enqueue(w.box, Outbox.Provision(id), now))
  }

  predicate CanStop(w: World, id: string) { Live(w, id) && w.services[id].status != Stopped }

  function Step(w: World, op: Op): World
    requires op.Polling? ==> op.poll.Poll? && |op.poll.rows| == |op.poll.results|
  {
    if IsRead(op) then
      match Decide(w, op)
      case None => w
      case Some(plan) => w.(plans := w.plans[op.request := plan])
    else match op
      case Commit(request, now) =>
        if request !in w.plans then w
        else var plan := w.plans[request]; Carry(w.(plans := w.plans - {request}), plan, now)
      case GiveUp(request) => w.(plans := w.plans - {request})
      case Stop(id, now) =>
        if !CanStop(w, id) then w
        else w.(services := SetStatus(w.services, id, Stopped),
                box := Enqueue(CancelFor(w.box, id), Outbox.Deprovision(id), now))
      case DaemonReports(id, status) => w.(services := SetStatus(w.services, id, status))
      case Suspending(workspace, now) => w.(box := Enqueue(w.box, Outbox.Suspend(workspace), now))
      case DeletesWorkspace(workspace) => w.(services := MarkAllDeleted(w.services, workspace))
      case Polling(poll) => w.(box := Outbox.Step(w.box, poll))
      case Purging(cutoff) => w.(box := Outbox.Step(w.box, Outbox.Purge(cutoff)))
      case _ => w
  }

  ghost predicate Enabled(w: World, op: Op) {
    && (op.Polling? ==> op.poll.Poll? && Outbox.Enabled(w.box, op.poll))
    && (IsRead(op) ==> op.request !in w.plans)
  }

  ghost predicate Reaches(w: World, ops: seq<Op>, w': World)
    decreases |ops|
  {
    if ops == [] then w == w' else Enabled(w, ops[0]) && Reaches(Step(w, ops[0]), ops[1..], w')
  }

  lemma CarryKeepsAccounts(w: World, plan: Plan, now: int)
    requires Outbox.Accounted(w.box)
    ensures Outbox.Accounted(Carry(w, plan, now).box)
  {
    match plan
    case ToDeploy(id, _, _) => Outbox.StepKeepsAccounts(w.box, Outbox.Enqueue(Outbox.Provision(id), now));
    case ToDelete(id, needsDeprovision) =>
      Outbox.StepKeepsAccounts(w.box, Outbox.Cancel(id));
      Outbox.StepKeepsAccounts(CancelFor(w.box, id), Outbox.Enqueue(Outbox.Deprovision(id), now));
    case ToProvision(id) => Outbox.StepKeepsAccounts(w.box, Outbox.Enqueue(Outbox.Provision(id), now));
  }

  lemma StepKeepsAccounts(w: World, op: Op)
    requires Outbox.Accounted(w.box) && Enabled(w, op)
    ensures Outbox.Accounted(Step(w, op).box)
  {
    match op
    case Commit(request, now) =>
      if request in w.plans { CarryKeepsAccounts(w.(plans := w.plans - {request}), w.plans[request], now); }
    case Stop(id, now) =>
      Outbox.StepKeepsAccounts(w.box, Outbox.Cancel(id));
      Outbox.StepKeepsAccounts(CancelFor(w.box, id), Outbox.Enqueue(Outbox.Deprovision(id), now));
    case Suspending(ws, now) => Outbox.StepKeepsAccounts(w.box, Outbox.Enqueue(Outbox.Suspend(ws), now));
    case Polling(poll) => Outbox.StepKeepsAccounts(w.box, poll);
    case Purging(cutoff) => Outbox.StepKeepsAccounts(w.box, Outbox.Purge(cutoff));
    case _ =>
  }

  /** Who will be provisioned: what is stopped or failed by a restart, anything by a rollback, and what is suspended by
      a resume, as long as it is not deleted. */
  lemma ProvisionIsPlannedIff(w: World, op: Op, id: string)
    requires Enabled(w, op) && (op.ReadRestart? || op.ReadRollback? || op.ReadUnsuspend?)
    ensures (op.request in Step(w, op).plans && Step(w, op).plans[op.request] == ToProvision(id))
            <==> && id == op.id && id in w.services && !w.services[id].deleted
                 && (op.ReadRestart? ==> w.services[id].status in {Stopped, Failed})
                 && (op.ReadUnsuspend? ==> w.services[id].status == Suspended)
    ensures Step(w, op).services == w.services && Step(w, op).box == w.box
  {
  }

  /** A handler that has committed or given up does nothing any more. */
  lemma StepsEnd(w: World, op: Op, request: nat, now: int)
    requires Ends(op, request)
    ensures request !in Step(w, op).plans && Step(Step(w, op), Commit(request, now)) == Step(w, op)
    ensures op.GiveUp? ==> Step(w, op).services == w.services && Step(w, op).box == w.box
  {
  }

  /** A daemon's report sets the status and a suspension adds one event, and neither touches anything else. */
  lemma StepsFromOutside(w: World, id: string, status: Status, workspace: string, now: int)
    ensures var r := Step(w, DaemonReports(id, status));
            && r == w.(services := r.services) && r.services.Keys == w.services.Keys
            && forall x :: x in w.services ==>
                 r.services[x] == if x == id then w.services[x].(status := status) else w.services[x]
    ensures var r := Step(w, Suspending(workspace, now));
            && r == w.(box := r.box)
            && r.box.table == w.box.table + {Outbox.Row(w.box.nextId, now, Outbox.Suspend(workspace))}
  {
  }

  // ---- The shape of what is pending for a service ----

  predicate IsFor(r: Outbox.Row, id: string) { r.payload in {Outbox.Provision(id), Outbox.Deprovision(id)} }

  /** At most one deprovision is pending, and every other pending event is a provision committed after it: ids count
      the commits here. */
  ghost predicate Shaped(table: set<Outbox.Row>, id: string) {
    forall d, r :: d in table && r in table && d.payload == Outbox.Deprovision(id) && IsFor(r, id) && r != d
      ==> r.payload == Outbox.Provision(id) && d.id < r.id
  }

  lemma EnqueueKeepsShape(box: Outbox.State, payload: Outbox.Payload, now: int, id: string)
    requires Outbox.Accounted(box) && Shaped(box.table, id)
    requires payload == Outbox.Deprovision(id) ==> forall r :: r in box.table ==> !IsFor(r, id)
    ensures Shaped(Enqueue(box, payload, now).table, id)
  {
  }

  lemma CancelKeepsShape(box: Outbox.State, cancelled: string, id: string)
    requires Outbox.Accounted(box) && Shaped(box.table, id)
    ensures Outbox.Accounted(CancelFor(box, cancelled)) && Shaped(CancelFor(box, cancelled).table, id)
    ensures forall r :: r in CancelFor(box, cancelled).table ==> !IsFor(r, cancelled)
  {
    Outbox.StepKeepsAccounts(box, Outbox.Cancel(cancelled));
  }

  lemma CarryKeepsShape(w: World, plan: Plan, now: int, id: string)
    requires Outbox.Accounted(w.box) && Shaped(w.box.table, id)
    ensures Shaped(Carry(w, plan, now).box.table, id)
  {
    match plan
    case ToDeploy(deployed, _, _) => EnqueueKeepsShape(w.box, Outbox.Provision(deployed), now, id);
    case ToDelete(deleted, needsDeprovision) =>
      CancelKeepsShape(w.box, deleted, id);
      EnqueueKeepsShape(CancelFor(w.box, deleted), Outbox.Deprovision(deleted), now, id);
    case ToProvision(provisioned) => EnqueueKeepsShape(w.box, Outbox.Provision(provisioned), now, id);
  }

  lemma StepKeepsShape(w: World, op: Op, id: string)
    requires Outbox.Accounted(w.box) && Enabled(w, op) && Shaped(w.box.table, id)
    ensures Shaped(Step(w, op).box.table, id)
  {
    match op
    case Commit(request, now) =>
      if request in w.plans { CarryKeepsShape(w.(plans := w.plans - {request}), w.plans[request], now, id); }
    case Stop(stopped, now) =>
      CancelKeepsShape(w.box, stopped, id);
      EnqueueKeepsShape(CancelFor(w.box, stopped), Outbox.Deprovision(stopped), now, id);
    case Suspending(ws, now) => EnqueueKeepsShape(w.box, Outbox.Suspend(ws), now, id);
    case _ =>
  }

  /** Whatever handlers overlap, a service has at most one deprovision pending, and pending provisions were committed
      after it. By which of them is stamped first nothing is said here. */
  lemma {:induction false} PendingEventsAreShaped(w: World, ops: seq<Op>, w': World, id: string)
    requires Outbox.Accounted(w.box) && Shaped(w.box.table, id) && Reaches(w, ops, w')
    ensures Outbox.Accounted(w'.box) && Shaped(w'.box.table, id)
    decreases |ops|
  {
    if ops != [] {
      StepKeepsAccounts(w, ops[0]);
      StepKeepsShape(w, ops[0], id);
      PendingEventsAreShaped(Step(w, ops[0]), ops[1..], w', id);
    }
  }

  // ---- The order by stamps, which the poller goes by ----

  /** No pending provision is stamped before a pending deprovision of its service. */
  ghost predicate StampsInOrder(table: set<Outbox.Row>, id: string) {
    forall d, p :: d in table && p in table && d.payload == Outbox.Deprovision(id) && p.payload == Outbox.Provision(id)
      ==> d.createdAt <= p.createdAt
  }

  /** The step commits a provision of the service with a stamp older than a pending deprovision of it. */
  predicate ProvisionsLate(w: World, op: Op, id: string) {
    op.Commit? && op.request in w.plans && Provides(w, w.plans[op.request], id)
    && exists d :: d in w.box.table && d.payload == Outbox.Deprovision(id) && op.now < d.createdAt
  }

  predicate Provides(w: World, plan: Plan, id: string) {
    plan == ToProvision(id)
    || (plan.ToDeploy? && plan.id == id && id !in w.services && !SlugIsTaken(w.services, plan.slug))
  }

  lemma EnqueueKeepsStampsIff(box: Outbox.State, id: string, now: int)
    requires StampsInOrder(box.table, id)
    ensures StampsInOrder(Enqueue(box, Outbox.Provision(id), now).table, id)
            <==> forall d :: d in box.table && d.payload == Outbox.Deprovision(id) ==> d.createdAt <= now
  {
    var p := Outbox.Row(box.nextId, now, Outbox.Provision(id));
    assert p in Enqueue(box, Outbox.Provision(id), now).table;
  }

  lemma StopKeepsStamps(box: Outbox.State, stopped: string, now: int, id: string)
    requires StampsInOrder(box.table, id)
    ensures StampsInOrder(CancelFor(box, stopped).table, id)
    ensures StampsInOrder(Enqueue(CancelFor(box, stopped), Outbox.Deprovision(stopped), now).table, id)
  {
  }

  lemma CarryKeepsStampsIff(w: World, plan: Plan, now: int, id: string)
    requires StampsInOrder(w.box.table, id)
    ensures StampsInOrder(Carry(w, plan, now).box.table, id)
            <==> (Provides(w, plan, id)
                  ==> forall d :: d in w.box.table && d.payload == Outbox.Deprovision(id) ==> d.createdAt <= now)
  {
    match plan
    case ToDeploy(_, _, _) => EnqueueKeepsStampsIff(w.box, id, now);
    case ToDelete(deleted, _) => StopKeepsStamps(w.box, deleted, now, id);
    case ToProvision(_) => EnqueueKeepsStampsIff(w.box, id, now);
  }

  lemma StepKeepsStampsIff(w: World, op: Op, id: string)
    requires Enabled(w, op) && StampsInOrder(w.box.table, id)
    ensures StampsInOrder(Step(w, op).box.table, id) <==> !ProvisionsLate(w, op, id)
  {
    match op
    case Commit(request, now) =>
      if request in w.plans {
        CarryKeepsStampsIff(w.(plans := w.plans - {request}), w.plans[request], now, id);
      }
    case Stop(stopped, now) => StopKeepsStamps(w.box, stopped, now, id);
    case _ =>
  }

  ghost predicate InOrderThroughout(w: World, ops: seq<Op>, id: string)
    decreases |ops|
  {
    StampsInOrder(w.box.table, id)
    && (ops != [] && Enabled(w, ops[0]) ==> InOrderThroughout(Step(w, ops[0]), ops[1..], id))
  }

  ghost predicate NoneIsLate(w: World, ops: seq<Op>, id: string)
    decreases |ops|
  {
    ops != [] && Enabled(w, ops[0]) ==> !ProvisionsLate(w, ops[0], id) && NoneIsLate(Step(w, ops[0]), ops[1..], id)
  }

  /** Over every run, a service's pending provisions are never stamped before its pending deprovision if and only if no
      provision of it commits with a stamp older than a deprovision pending by then. */
  lemma {:induction false} StampsStayInOrderIff(w: World, ops: seq<Op>, w': World, id: string)
    requires Reaches(w, ops, w') && StampsInOrder(w.box.table, id)
    ensures InOrderThroughout(w, ops, id) <==> NoneIsLate(w, ops, id)
    ensures NoneIsLate(w, ops, id) ==> StampsInOrder(w'.box.table, id)
    decreases |ops|
  {
    if ops != [] {
      StepKeepsStampsIff(w, ops[0], id);
      if !ProvisionsLate(w, ops[0], id) { StampsStayInOrderIff(Step(w, ops[0]), ops[1..], w', id); }
    }
  }

  lemma SelectionOfTwo(rows: seq<Outbox.Row>, first: Outbox.Row, second: Outbox.Row, limit: nat)
    requires first.createdAt < second.createdAt && limit >= 2
    requires Outbox.IsSelection(rows, {first, second}, {}, limit)
    ensures rows == [first, second]
  {
    Outbox.SelectionSize(rows, {first, second}, limit);
    Outbox.CountRows(rows);
    assert {first, second} - Outbox.Rows(rows) == {};
    assert first in rows && second in rows && Outbox.Rows(rows) == {first, second};
    assert rows[0] in rows && rows[1] in rows;
  }

  lemma ResumeAfterStop(w: World)
    requires w == World(map["a" := Service("ws", "s", Suspended, false)], Outbox.Start(), map[])
    ensures Enabled(w, ReadUnsuspend(1, "a"))
    ensures var r := Step(Step(Step(w, ReadUnsuspend(1, "a")), Stop("a", 9)), Commit(1, 5));
            r.box.table == {Outbox.Row(1, 5, Outbox.Provision("a")), Outbox.Row(0, 9, Outbox.Deprovision("a"))}
  {
    var w1 := Step(w, ReadUnsuspend(1, "a"));
    assert w1.plans == map[1 := ToProvision("a")];
    assert Step(w1, Stop("a", 9)).box.table == {Outbox.Row(0, 9, Outbox.Deprovision("a"))};
  }

  lemma ThreeSteps(w: World, a: Op, b: Op, c: Op)
    requires Enabled(w, a) && Enabled(Step(w, a), b) && Enabled(Step(Step(w, a), b), c)
    ensures Reaches(w, [a, b, c], Step(Step(Step(w, a), b), c))
  {
    var w2, w3 := Step(Step(w, a), b), Step(Step(Step(w, a), b), c);
    assert [a, b, c][1..] == [b, c] && [b, c][1..] == [c] && [c][1..] == [];
    assert Reaches(w3, [], w3) && Reaches(w2, [c], w3);
  }

  /** A resume takes its stamp and reads the service, a stop begins and commits, and the resume commits: every poll of
      two rows or more publishes the provision first and then the deprovision, which stops the resumed service. */
  lemma StopUndoesALaterResume()
    ensures var w := World(map["a" := Service("ws", "s", Suspended, false)], Outbox.Start(), map[]);
            var p, d := Outbox.Row(1, 5, Outbox.Provision("a")), Outbox.Row(0, 9, Outbox.Deprovision("a"));
            exists w' :: Reaches(w, [ReadUnsuspend(1, "a"), Stop("a", 9), Commit(1, 5)], w')
              && w'.box.table == {p, d} && !StampsInOrder(w'.box.table, "a")
              && forall rows, limit: nat :: limit >= 2 && Outbox.IsSelection(rows, w'.box.table, {}, limit)
                   ==> rows == [p, d]
  {
    var w := World(map["a" := Service("ws", "s", Suspended, false)], Outbox.Start(), map[]);
    var p, d := Outbox.Row(1, 5, Outbox.Provision("a")), Outbox.Row(0, 9, Outbox.Deprovision("a"));
    ResumeAfterStop(w);
    ThreeSteps(w, ReadUnsuspend(1, "a"), Stop("a", 9), Commit(1, 5));
    forall rows, limit: nat | limit >= 2 && Outbox.IsSelection(rows, {p, d}, {}, limit) ensures rows == [p, d] {
      SelectionOfTwo(rows, p, d, limit);
    }
  }

  function PendingFor(w: World, id: string): set<Outbox.Row> { set r | r in w.box.table && IsFor(r, id) }

  /** A committed stop leaves exactly one event pending for the service: the deprovision it inserted. */
  lemma StopLeavesOneDeprovision(w: World, id: string, now: int)
    requires CanStop(w, id)
    ensures PendingFor(Step(w, Stop(id, now)), id) == {Outbox.Row(w.box.nextId, now, Outbox.Deprovision(id))}
  {
    var row := Outbox.Row(w.box.nextId, now, Outbox.Deprovision(id));
    assert Step(w, Stop(id, now)).box.table
        == (w.box.table - set r | r in w.box.table && IsFor(r, id)) + {row};
  }

  /** A committed delete leaves the deprovision that it found to be needed when it read the service, and nothing
      else. */
  lemma DeleteLeavesItsDeprovision(w: World, request: nat, id: string, needsDeprovision: bool, now: int)
    requires request in w.plans && w.plans[request] == ToDelete(id, needsDeprovision)
    ensures PendingFor(Step(w, Commit(request, now)), id)
         == if needsDeprovision then {Outbox.Row(w.box.nextId, now, Outbox.Deprovision(id))} else {}
  {
    var row := Outbox.Row(w.box.nextId, now, Outbox.Deprovision(id));
    assert Step(w, Commit(request, now)).box.table
        == (w.box.table - set r | r in w.box.table && IsFor(r, id)) + if needsDeprovision then {row} else {};
  }

  predicate Ends(op: Op, request: nat) { (op.Commit? || op.GiveUp?) && op.request == request }

  lemma {:induction false} PlanStays(w: World, ops: seq<Op>, w': World, request: nat, id: string)
    requires Reaches(w, ops, w') && request in w.plans && id in w.services
    requires forall k :: 0 <= k < |ops| ==> !Ends(ops[k], request)
    ensures request in w'.plans && w'.plans[request] == w.plans[request] && id in w'.services
    decreases |ops|
  {
    if ops != [] { PlanStays(Step(w, ops[0]), ops[1..], w', request, id); }
  }

  /** Over every run from the read of a delete to its commit: what the commit leaves pending for the service is exactly
      one deprovision if the service was neither stopped nor failed when it was read, and otherwise nothing. So a
      deprovision is left whenever the service is neither at the commit if and only if it was neither when it was read
      or is one of the two at the commit. */
  lemma DeleteDeprovisionsIff(w: World, request: nat, id: string, ops: seq<Op>, w': World, now: int)
    requires Live(w, id) && request !in w.plans && Reaches(Step(w, ReadDelete(request, id)), ops, w')
    requires forall k :: 0 <= k < |ops| ==> !Ends(ops[k], request)
    ensures request in w'.plans && id in w'.services
    ensures PendingFor(Step(w', Commit(request, now)), id)
         == if w.services[id].status in {Stopped, Failed} then {}
            else {Outbox.Row(w'.box.nextId, now, Outbox.Deprovision(id))}
    ensures (w'.services[id].status !in {Stopped, Failed} ==> PendingFor(Step(w', Commit(request, now)), id) != {})
            <==> w.services[id].status !in {Stopped, Failed} || w'.services[id].status in {Stopped, Failed}
  {
    PlanStays(Step(w, ReadDelete(request, id)), ops, w', request, id);
    DeleteLeavesItsDeprovision(w', request, id, NeedsDeprovision(w.services[id]), now);
  }

  // ---- Whose events are cancelled ----

  /** The step takes the row out of the outbox: the event was published or purged, or its service was stopped or
      deleted. */
  predicate Removes(w: World, op: Op, r: Outbox.Row) {
    match op
    case Commit(request, _) => request in w.plans && w.plans[request].ToDelete? && IsFor(r, w.plans[request].id)
    case Stop(id, _) =>
      id in w.services && !w.services[id].deleted && w.services[id].status != Stopped && IsFor(r, id)
    case Polling(poll) => poll.Poll? && Outbox.TakesOut(poll, r)
    case Purging(cutoff) => r.createdAt < cutoff
    case _ => false
  }

  lemma CancelRemoves(box: Outbox.State, id: string, r: Outbox.Row)
    requires r in box.table
    ensures r !in CancelFor(box, id).table <==> IsFor(r, id)
  {
    Outbox.StepTakesOutIff(box, Outbox.Cancel(id), r);
  }

  lemma StepRemovesIff(w: World, op: Op, r: Outbox.Row)
    requires Outbox.Accounted(w.box) && Enabled(w, op) && r in w.box.table
    ensures r !in Step(w, op).box.table <==> Removes(w, op, r)
  {
    match op
    case Commit(request, _) => if request in w.plans { CancelRemoves(w.box, w.plans[request].id, r); }
    case Stop(id, _) => CancelRemoves(w.box, id, r);
    case Polling(poll) => Outbox.StepTakesOutIff(w.box, poll, r);
    case Purging(cutoff) => Outbox.StepTakesOutIff(w.box, Outbox.Purge(cutoff), r);
    case _ =>
  }

  /** A stop and the commit of a delete leave every suspend event and the events of all other services alone. */
  lemma OthersKeepTheirEvents(w: World, op: Op, id: string, other: string)
    requires Outbox.Accounted(w.box) && other != id
    requires op.Stop? || (op.Commit? && op.request in w.plans && w.plans[op.request].ToDelete?)
    requires id == if op.Stop? then op.id else w.plans[op.request].id
    ensures PendingFor(Step(w, op), other) == PendingFor(w, other)
    ensures forall r: Outbox.Row :: r.payload.Suspend? ==> (r in Step(w, op).box.table <==> r in w.box.table)
  {
    forall r | r in w.box.table && !IsFor(r, id) ensures r in Step(w, op).box.table { StepRemovesIff(w, op, r); }
  }

  // ---- After a delete ----

  function Provisions(rows: set<Outbox.Row>, id: string): set<Outbox.Row> {
    set r | r in rows && r.payload == Outbox.Provision(id)
  }

  /** A handler has read the service and will provision it when it commits. */
  predicate IsPlanned(w: World, id: string) { exists q :: q in w.plans && w.plans[q] == ToProvision(id) }

  predicate IsDeleted(w: World, id: string) { id in w.services && w.services[id].deleted }

  lemma StepOnDeleted(w: World, op: Op, id: string)
    requires Enabled(w, op) && IsDeleted(w, id) && !IsPlanned(w, id)
    ensures IsDeleted(Step(w, op), id) && !IsPlanned(Step(w, op), id)
    ensures Provisions(Step(w, op).box.table, id) <= Provisions(w.box.table, id)
  {
    if op.Commit? && op.request in w.plans { assert w.plans[op.request] != ToProvision(id); }
  }

  /** What a step publishes was pending before it. */
  lemma StepPublishes(w: World, op: Op) returns (more: seq<Outbox.Row>)
    requires Enabled(w, op)
    ensures Step(w, op).box.published == w.box.published + more && Outbox.Rows(more) <= w.box.table
  {
    more := if op.Polling? then Outbox.Delivered(op.poll.rows, op.poll.results) else [];
    assert Step(w, op).box.published == w.box.published + more;
  }

  /** Once a service is marked deleted and no handler plans to provision it, no run makes a provision for it pending
      that was not pending already, and nothing but those is ever published for it. */
  lemma {:induction false} DeletedGetsNoNewProvision(w: World, ops: seq<Op>, w': World, id: string)
    returns (more: seq<Outbox.Row>)
    requires Reaches(w, ops, w') && IsDeleted(w, id) && !IsPlanned(w, id)
    ensures Provisions(w'.box.table, id) <= Provisions(w.box.table, id)
    ensures w'.box.published == w.box.published + more
    ensures Provisions(Outbox.Rows(more), id) <= Provisions(w.box.table, id)
    decreases |ops|
  {
    if ops == [] {
      more := [];
      assert Outbox.Rows(more) == {};
    } else {
      StepOnDeleted(w, ops[0], id);
      var first := StepPublishes(w, ops[0]);
      var rest := DeletedGetsNoNewProvision(Step(w, ops[0]), ops[1..], w', id);
      more := first + rest;
      assert Outbox.Rows(more) == Outbox.Rows(first) + Outbox.Rows(rest);
    }
  }

  /** No run from here makes a provision for the service pending. */
  ghost predicate NeverProvisioned(w: World, id: string) {
    forall ops, w' :: Reaches(w, ops, w') ==> Provisions(w'.box.table, id) == {}
  }

  lemma PlannedProvisionCommits(w: World, id: string, request: nat)
    requires request in w.plans && w.plans[request] == ToProvision(id)
    ensures Reaches(w, [Commit(request, 0)], Step(w, Commit(request, 0)))
    ensures Provisions(Step(w, Commit(request, 0)).box.table, id) != {}
  {
    var next := Step(w, Commit(request, 0));
    assert [Commit(request, 0)][1..] == [] && Reaches(next, [], next);
    assert Outbox.Row(w.box.nextId, 0, Outbox.Provision(id)) in Provisions(next.box.table, id);
  }

  lemma DeleteKeepsPlans(w: World, request: nat, id: string, needsDeprovision: bool, now: int)
    requires request in w.plans && w.plans[request] == ToDelete(id, needsDeprovision)
    ensures IsPlanned(Step(w, Commit(request, now)), id) <==> IsPlanned(w, id)
  {
    var after := Step(w, Commit(request, now));
    assert after.plans == w.plans - {request};
    if IsPlanned(w, id) {
      var q :| q in w.plans && w.plans[q] == ToProvision(id);
      assert q in after.plans && after.plans[q] == ToProvision(id);
    }
  }

  /** For a service marked deleted, by whatever path: no run ever has a provision of it pending if and only if none is
      pending now and no handler that has read it is still to provision it. */
  lemma DeletedIsFinalIff(w: World, id: string)
    requires IsDeleted(w, id)
    ensures NeverProvisioned(w, id) <==> Provisions(w.box.table, id) == {} && !IsPlanned(w, id)
  {
    if IsPlanned(w, id) {
      var q :| q in w.plans && w.plans[q] == ToProvision(id);
      PlannedProvisionCommits(w, id, q);
    } else {
      assert Reaches(w, [], w);
      forall ops, w' | Reaches(w, ops, w') ensures Provisions(w'.box.table, id) <= Provisions(w.box.table, id) {
        var _ := DeletedGetsNoNewProvision(w, ops, w', id);
      }
    }
  }

  /** A delete is final if and only if, when it commits, no restart, rollback or resume that has already read the
      service is still to commit. */
  lemma DeleteIsFinalIff(w: World, request: nat, id: string, needsDeprovision: bool, now: int)
    requires request in w.plans && w.plans[request] == ToDelete(id, needsDeprovision) && id in w.services
    ensures IsDeleted(Step(w, Commit(request, now)), id)
    ensures Provisions(Step(w, Commit(request, now)).box.table, id) == {}
    ensures NeverProvisioned(Step(w, Commit(request, now)), id) <==> !IsPlanned(w, id)
  {
    DeleteKeepsPlans(w, request, id, needsDeprovision, now);
    DeletedIsFinalIff(Step(w, Commit(request, now)), id);
  }

  /** Then nothing is published for it either. */
  lemma NoProvisionAfterDelete(w: World, request: nat, id: string, needsDeprovision: bool, now: int, ops: seq<Op>,
                               w': World) returns (more: seq<Outbox.Row>)
    requires request in w.plans && w.plans[request] == ToDelete(id, needsDeprovision) && id in w.services
    requires !IsPlanned(w, id) && Reaches(Step(w, Commit(request, now)), ops, w')
    ensures Provisions(w'.box.table, id) == {}
    ensures w'.box.published == w.box.published + more && Provisions(Outbox.Rows(more), id) == {}
  {
    DeleteIsFinalIff(w, request, id, needsDeprovision, now);
    var after := Step(w, Commit(request, now));
    DeleteKeepsPlans(w, request, id, needsDeprovision, now);
    more := DeletedGetsNoNewProvision(after, ops, w', id);
  }

  /** A restart that has read the service before a delete commits provisions the deleted service afterwards. */
  lemma RestartOvertakesDelete()
    ensures var w := World(map["a" := Service("ws", "s", Stopped, false)], Outbox.Start(), map[]);
            var ops := [ReadRestart(1, "a"), ReadDelete(2, "a"), Commit(2, 7), Commit(1, 8)];
            exists w' :: Reaches(w, ops, w') && IsDeleted(w', "a")
              && w'.box.table == {Outbox.Row(0, 8, Outbox.Provision("a"))}
  {
    var w0 := World(map["a" := Service("ws", "s", Stopped, false)], Outbox.Start(), map[]);
    var a, b, c, d := ReadRestart(1, "a"), ReadDelete(2, "a"), Commit(2, 7), Commit(1, 8);
    var w1 := Step(w0, a);
    assert w1.plans == map[1 := ToProvision("a")];
    var w2 := Step(w1, b);
    assert w2.plans == map[1 := ToProvision("a"), 2 := ToDelete("a", false)];
    var w3 := Step(w2, c);
    assert w3.plans == map[1 := ToProvision("a")] && w3.box.table == {} && w3.box.nextId == 0;
    var w4 := Step(w3, d);
    assert w4.box.table == {Outbox.Row(0, 8, Outbox.Provision("a"))};
    FourSteps(w0, a, b, c, d);
  }

  lemma ReachesFrom(w: World, op: Op, ops: seq<Op>, w': World)
    requires Enabled(w, op) && Reaches(Step(w, op), ops, w')
    ensures Reaches(w, [op] + ops, w')
  {
    assert ([op] + ops)[1..] == ops;
  }

  /** Two handlers have read a stopped service, one to delete and one to restart it, and the restart has committed. */
  lemma RestartFirst()
    ensures var w := World(map["a" := Service("ws", "s", Stopped, false)], Outbox.Start(), map[]);
            var read := Step(Step(w, ReadDelete(1, "a")), ReadRestart(2, "a"));
            && Enabled(w, ReadDelete(1, "a")) && Enabled(Step(w, ReadDelete(1, "a")), ReadRestart(2, "a"))
            && var w' := Step(read, Commit(2, 8));
            && w'.plans == map[1 := ToDelete("a", false)] && w'.services.Keys == {"a"} && w'.box.published == []
            && w'.box.table == {Outbox.Row(0, 8, Outbox.Provision("a"))}
  {
    var w0 := World(map["a" := Service("ws", "s", Stopped, false)], Outbox.Start(), map[]);
    var w1 := Step(w0, ReadDelete(1, "a"));
    assert w1.plans == map[1 := ToDelete("a", false)];
    var w2 := Step(w1, ReadRestart(2, "a"));
    assert w2.plans == map[1 := ToDelete("a", false), 2 := ToProvision("a")];
  }

  lemma PublishThenDelete(w: World, row: Outbox.Row)
    requires w.plans == map[1 := ToDelete("a", false)] && "a" in w.services
    requires w.box.table == {row} && w.box.published == []
    ensures var poll := Polling(Outbox.Poll([row], [Outbox.Acked], {}, 50, true));
            && Enabled(w, poll)
            && var w' := Step(Step(w, poll), Commit(1, 9));
            IsDeleted(w', "a") && w'.box.published == [row] && w'.box.table == {}
  {
    var polled := Step(w, Polling(Outbox.Poll([row], [Outbox.Acked], {}, 50, true)));
    assert Outbox.Delivered([row], [Outbox.Acked]) == [row] && Outbox.Rows([row]) == {row};
    assert polled.box.table == {} && polled.box.published == [row];
  }

  /** A delete that read the service while it was stopped commits after a restart of it has been published: the daemon
      is told to run the deleted service and never to stop it. */
  lemma StaleDeleteLeavesAServiceRunning()
    ensures var w := World(map["a" := Service("ws", "s", Stopped, false)], Outbox.Start(), map[]);
            var row := Outbox.Row(0, 8, Outbox.Provision("a"));
            var poll := Outbox.Poll([row], [Outbox.Acked], {}, 50, true);
            var ops := [ReadDelete(1, "a")] + [ReadRestart(2, "a"), Commit(2, 8), Polling(poll), Commit(1, 9)];
            exists w' :: Reaches(w, ops, w') && IsDeleted(w', "a")
              && w'.box.published == [row] && w'.box.table == {}
  {
    var w := World(map["a" := Service("ws", "s", Stopped, false)], Outbox.Start(), map[]);
    var row := Outbox.Row(0, 8, Outbox.Provision("a"));
    var poll := Polling(Outbox.Poll([row], [Outbox.Acked], {}, 50, true));
    RestartFirst();
    var read := Step(w, ReadDelete(1, "a"));
    var restarted := Step(Step(read, ReadRestart(2, "a")), Commit(2, 8));
    PublishThenDelete(restarted, row);
    FourSteps(read, ReadRestart(2, "a"), Commit(2, 8), poll, Commit(1, 9));
    ReachesFrom(w, ReadDelete(1, "a"), [ReadRestart(2, "a"), Commit(2, 8), poll, Commit(1, 9)],
                Step(Step(restarted, poll), Commit(1, 9)));
  }

  lemma FourSteps(w: World, a: Op, b: Op, c: Op, d: Op)
    requires Enabled(w, a) && Enabled(Step(w, a), b) && Enabled(Step(Step(w, a), b), c)
    requires Enabled(Step(Step(Step(w, a), b), c), d)
    ensures Reaches(w, [a, b, c, d], Step(Step(Step(Step(w, a), b), c), d))
  {
    var w3, w4 := Step(Step(Step(w, a), b), c), Step(Step(Step(Step(w, a), b), c), d);
    assert [a, b, c, d][1..] == [b, c, d] && [b, c, d][1..] == [c, d] && [c, d][1..] == [d] && [d][1..] == [];
    assert Reaches(w4, [], w4) && Reaches(w3, [d], w4);
  }

  /** The deletion of a workspace marks its services deleted and leaves the same behind. */
  lemma WorkspaceDeletionIsFinalIff(w: World, workspace: string, id: string)
    requires Live(w, id) && w.services[id].workspace == workspace
    ensures var after := Step(w, DeletesWorkspace(workspace));
            && IsDeleted(after, id) && after.box == w.box
            && (NeverProvisioned(after, id) <==> Provisions(w.box.table, id) == {} && !IsPlanned(w, id))
  {
    DeletedIsFinalIff(Step(w, DeletesWorkspace(workspace)), id);
  }

  // ---- Slugs ----

  lemma ReplaceKeepsSlugs(services: map<string, Service>, workspace: string, slug: string)
    ensures SlugIsTaken(Replace(services, workspace, slug), slug) <==> SlugIsTaken(services, slug)
    ensures !SlugIsTaken(services, slug) ==> Replace(services, workspace, slug) == services
    ensures forall id :: id in services ==>
              var after, before := Replace(services, workspace, slug)[id], services[id];
              after == before.(deleted := before.deleted || (before.workspace == workspace && before.slug == slug
                                                     && before.status in {Stopped, Failed}))
  {
    if SlugIsTaken(services, slug) {
      var id :| id in services && services[id].slug == slug;
      assert id in Replace(services, workspace, slug) && Replace(services, workspace, slug)[id].slug == slug;
    }
  }

  /** A deploy commits if and only if no row has its id or its slug, and adds one provisioning service and one
      provision. Where there is an old service of the slug to be replaced, it changes nothing. */
  lemma DeployCommitsIff(w: World, request: nat, plan: Plan, now: int)
    requires request in w.plans && w.plans[request] == plan && plan.ToDeploy?
    ensures var after := Step(w, Commit(request, now));
            if plan.id !in w.services && forall x :: x in w.services ==> w.services[x].slug != plan.slug
            then && after.services == w.services[plan.id := Service(plan.workspace, plan.slug, Provisioning, false)]
                 && after.box.table == w.box.table + {Outbox.Row(w.box.nextId, now, Outbox.Provision(plan.id))}
            else after.services == w.services && after.box == w.box
    ensures (exists x :: x in w.services && IsReplaced(w.services[x], plan.workspace, plan.slug))
            ==> Step(w, Commit(request, now)) == w.(plans := w.plans - {request})
  {
    assert SlugIsTaken(w.services, plan.slug) <==> !forall x :: x in w.services ==> w.services[x].slug != plan.slug;
  }

  ghost predicate SlugsAreUnique(services: map<string, Service>) {
    forall x, y :: x in services && y in services && services[x].slug == services[y].slug ==> x == y
  }

  /** What no step changes about a service: it stays, and so do workspace, slug and deletion. */
  ghost predicate Remains(s: Service, services: map<string, Service>, id: string) {
    && id in services && services[id].workspace == s.workspace && services[id].slug == s.slug
    && (s.deleted ==> services[id].deleted)
  }

  lemma StepKeepsServices(w: World, op: Op, id: string)
    requires Enabled(w, op)
    ensures SlugsAreUnique(w.services) ==> SlugsAreUnique(Step(w, op).services)
    ensures id in w.services ==> Remains(w.services[id], Step(w, op).services, id)
  {
    if op.Commit? && op.request in w.plans && w.plans[op.request].ToDeploy? {
      DeployCommitsIff(w, op.request, w.plans[op.request], op.now);
    }
  }

  /** Over every run, however checks and commits of deploys overlap, no two services have one slug, and a slug belongs
      to the first service that got it for good: deleted or not, that service stays its only one. */
  lemma {:induction false} SlugBelongsToOneService(w: World, ops: seq<Op>, w': World, id: string)
    requires Reaches(w, ops, w') && SlugsAreUnique(w.services)
    ensures SlugsAreUnique(w'.services)
    ensures id in w.services ==> Remains(w.services[id], w'.services, id)
    ensures id in w.services ==> forall x :: x in w'.services && w'.services[x].slug == w.services[id].slug ==> x == id
    decreases |ops|
  {
    if ops != [] {
      StepKeepsServices(w, ops[0], id);
      SlugBelongsToOneService(Step(w, ops[0]), ops[1..], w', id);
    }
  }

  /** A service is stopped and its slug deployed anew: the check lets the deploy pass, and its transaction changes
      nothing. */
  lemma RedeployIsRolledBack()
    ensures var w := World(map["old" := Service("ws", "s", Running, false)], Outbox.Start(), map[]);
            var ops := [Stop("old", 3), ReadDeploy(1, "new", "ws", "s"), Commit(1, 5)];
            exists w' :: Reaches(w, ops, w') && w'.services == map["old" := Service("ws", "s", Stopped, false)]
              && w'.box.table == {Outbox.Row(0, 3, Outbox.Deprovision("old"))}
              && 1 in Step(Step(w, ops[0]), ops[1]).plans
  {
    var w0 := World(map["old" := Service("ws", "s", Running, false)], Outbox.Start(), map[]);
    var a, b, c := Stop("old", 3), ReadDeploy(1, "new", "ws", "s"), Commit(1, 5);
    var w1 := Step(w0, a);
    assert w1.services == map["old" := Service("ws", "s", Stopped, false)];
    assert w1.box.table == {Outbox.Row(0, 3, Outbox.Deprovision("old"))};
    var w2 := Step(w1, b);
    assert w2.plans == map[1 := ToDeploy("new", "ws", "s")];
    assert w2.services["old"].slug == "s";
    DeployCommitsIff(w2, 1, ToDeploy("new", "ws", "s"), 5);
    ThreeSteps(w0, a, b, c);
    assert [a, b, c][0] == a && [a, b, c][1] == b;
  }

  // ---- The handlers ----

  class Api {
    var services: map<string, Service>
    var plans: map<nat, Plan>           // what the handlers between their two steps have decided
    const outbox: Outbox.OutboxTable

    ghost predicate Valid()
      reads this, outbox
    {
      outbox.Valid()
    }

    ghost function Model(): World
      reads this, outbox
    {
      World(services, outbox.model, plans)
    }

    constructor ()
      ensures Valid() && fresh(outbox) && Model() == World(map[], Outbox.Start(), map[])
    {
      services, plans := map[], map[];
      outbox := new Outbox.OutboxTable();
    }

    /** The check transaction of `deploy_service`. */
    method DeployChecks(request: nat, id: string, workspace: string, slug: string) returns (ok: bool)
      modifies this`plans
      ensures Model() == Step(old(Model()), ReadDeploy(request, id, workspace, slug))
      ensures ok <==> forall x :: x in services && services[x].workspace == workspace && services[x].slug == slug
                        ==> services[x].deleted || services[x].status !in {Provisioning, Running}
      ensures plans == if ok then old(plans)[request := ToDeploy(id, workspace, slug)] else old(plans)
    {
      ok := !SlugIsActive(services, workspace, slug);
      if ok { plans := plans[request := ToDeploy(id, workspace, slug)]; }
    }

    /** The deploy transaction: the update of old services, and the insert, which fails if a row has the id or the slug
        and then takes the update back. */
    method DeployCommits(request: nat, now: int) returns (ok: bool)
      requires Valid() && request in plans && plans[request].ToDeploy?
      modifies this, outbox
      ensures Valid() && Model() == Step(old(Model()), Commit(request, now))
      ensures ok <==> old(plans)[request].id !in old(services)
                      && forall x :: x in old(services) ==> old(services)[x].slug != old(plans)[request].slug
      ensures var plan := old(plans)[request];
              services == if !ok then old(services)
                          else old(services)[plan.id := Service(plan.workspace, plan.slug, Provisioning, false)]
    {
      var plan, savepoint := plans[request], services;
      DeployCommitsIff(Model(), request, plan, now);
      ReplaceKeepsSlugs(services, plan.workspace, plan.slug);
      plans := plans - {request};
      services := Replace(services, plan.workspace, plan.slug);
      if plan.id in services || SlugIsTaken(services, plan.slug) {
        services := savepoint;
        return false;
      }
      services := services[plan.id := Service(plan.workspace, plan.slug, Provisioning, false)];
      outbox.Insert(Outbox.Provision(plan.id), now);
      return true;
    }

    /** Read and transaction in one: the transaction's update repeats the check. */
    method StopService(id: string, now: int) returns (ok: bool)
      requires Valid()
      modifies this, outbox
      ensures Valid() && Model() == Step(old(Model()), Stop(id, now))
      ensures ok <==> id in old(services) && !old(services)[id].deleted && old(services)[id].status != Stopped
      ensures services == if ok then old(services)[id := old(services)[id].(status := Stopped)] else old(services)
      ensures PendingFor(Model(), id) == if ok then {Outbox.Row(old(outbox.nextId), now, Outbox.Deprovision(id))}
                                         else PendingFor(old(Model()), id)
    {
      if id !in services || services[id].deleted || services[id].status == Stopped {
        return false;
      }
      services := services[id := services[id].(status := Stopped)];
      outbox.DeleteFor(id);
      outbox.Insert(Outbox.Deprovision(id), now);
      return true;
    }

    method DeleteReads(request: nat, id: string) returns (ok: bool)
      modifies this`plans
      ensures Model() == Step(old(Model()), ReadDelete(request, id))
      ensures ok <==> id in services && !services[id].deleted
      ensures plans == if ok then old(plans)[request := ToDelete(id, services[id].status !in {Stopped, Failed})]
                       else old(plans)
    {
      if id !in services || services[id].deleted {
        return false;
      }
      var needsDeprovision := services[id].status != Stopped && services[id].status != Failed;
      plans := plans[request := ToDelete(id, needsDeprovision)];
      return true;
    }

    method DeleteCommits(request: nat, now: int)
      requires Valid() && request in plans && plans[request].ToDelete?
      modifies this, outbox
      ensures Valid() && Model() == Step(old(Model()), Commit(request, now))
      ensures var plan := old(plans)[request];
              services == if plan.id in old(services) && !old(services)[plan.id].deleted
                          then old(services)[plan.id := old(services)[plan.id].(status := Stopped, deleted := true)]
                          else old(services)
    {
      var plan := plans[request];
      plans := plans - {request};
      if plan.id in services && !services[plan.id].deleted {
        services := services[plan.id := services[plan.id].(status := Stopped, deleted := true)];
      }
      outbox.DeleteFor(plan.id);
      if plan.needsDeprovision { outbox.Insert(Outbox.Deprovision(plan.id), now); }
    }

    method RestartReads(request: nat, id: string) returns (ok: bool)
      modifies this`plans
      ensures Model() == Step(old(Model()), ReadRestart(request, id))
      ensures ok <==> id in services && !services[id].deleted && services[id].status in {Stopped, Failed}
      ensures plans == if ok then old(plans)[request := ToProvision(id)] else old(plans)
    {
      if id !in services || services[id].deleted || (services[id].status != Stopped && services[id].status != Failed) {
        return false;
      }
      plans := plans[request := ToProvision(id)];
      return true;
    }

    method RollbackReads(request: nat, id: string) returns (ok: bool)
      modifies this`plans
      ensures Model() == Step(old(Model()), ReadRollback(request, id))
      ensures ok <==> id in services && !services[id].deleted
      ensures plans == if ok then old(plans)[request := ToProvision(id)] else old(plans)
    {
      if id !in services || services[id].deleted {
        return false;
      }
      plans := plans[request := ToProvision(id)];
      return true;
    }

    /** The transaction of a restart, a rollback or a resumed service: by id, whatever has become of the row. */
    method ProvisionCommits(request: nat, now: int)
      requires Valid() && request in plans && plans[request].ToProvision?
      modifies this, outbox
      ensures Valid() && Model() == Step(old(Model()), Commit(request, now))
      ensures var id := old(plans)[request].id;
              && outbox.table == old(outbox.table) + {Outbox.Row(old(outbox.nextId), now, Outbox.Provision(id))}
              && services == if id in old(services) then old(services)[id := old(services)[id].(status := Provisioning)]
                             else old(services)
    {
      var id := plans[request].id;
      plans := plans - {request};
      if id in services { services := services[id := services[id].(status := Provisioning)]; }
      outbox.Insert(Outbox.Provision(id), now);
    }

    /** The transaction of `delete_workspace`, which does not look at the outbox. */
    method DeleteWorkspace(workspace: string)
      requires Valid()
      modifies this`services
      ensures Valid() && Model() == Step(old(Model()), DeletesWorkspace(workspace))
      ensures services.Keys == old(services).Keys
      ensures forall id :: id in services ==>
                services[id] == if old(services)[id].workspace == workspace && !old(services)[id].deleted
                                then Service(workspace, old(services)[id].slug, Stopped, true) else old(services)[id]
    {
      services := map id | id in services ::
        if services[id].workspace == workspace && !services[id].deleted
        then services[id].(status := Stopped, deleted := true) else services[id];
    }

    /** The query of `enqueue_unsuspend`: of the suspended services of a workspace, those with an artifact will be
        provisioned, in the order of the query. `ids` is what it returned, `first` the number of the first plan. */
    method UnsuspendReads(ids: seq<string>, hasArtifact: set<string>, first: nat) returns (next: nat)
      requires forall q :: q in plans ==> q < first
      requires forall id :: id in ids ==> id in services && !services[id].deleted && services[id].status == Suspended
      modifies this`plans
      ensures Model() == Resumes(old(Model()), Resumable(ids, hasArtifact), first)
      ensures next == first + |Resumable(ids, hasArtifact)|
    {
      next := first;
      for k := 0 to |ids|
        invariant next == first + |Resumable(ids[..k], hasArtifact)|
        invariant Model() == Resumes(old(Model()), Resumable(ids[..k], hasArtifact), first)
      {
        ghost var resumed := Resumable(ids[..k], hasArtifact);
        assert ids[..k + 1][..k] == ids[..k] && resumed + [] == resumed;
        if ids[k] in hasArtifact {
          OneMoreResumes(old(Model()), resumed, ids[k], first);
          plans := plans[next := ToProvision(ids[k])];
          next := next + 1;
        }
      }
      assert ids[..|ids|] == ids;
    }
  }

  /** One read after the other, each with a number of its own. */
  function Resumes(w: World, ids: seq<string>, first: nat): World {
    if ids == [] then w
    else
      var n := |ids| - 1;
      Step(Resumes(w, ids[..n], first), ReadUnsuspend(first + n, ids[n]))
  }

  lemma OneMoreResumes(w: World, ids: seq<string>, id: string, first: nat)
    requires Live(Resumes(w, ids, first), id) && Resumes(w, ids, first).services[id].status == Suspended
    ensures var before := Resumes(w, ids, first);
            Resumes(w, ids + [id], first) == before.(plans := before.plans[first + |ids| := ToProvision(id)])
  {
    assert (ids + [id])[..|ids|] == ids;
  }

  function Resumable(ids: seq<string>, hasArtifact: set<string>): seq<string> {
    if ids == [] then []
    else
      var last := ids[|ids| - 1];
      Resumable(ids[..|ids| - 1], hasArtifact) + if last in hasArtifact then [last] else []
  }

  /** The services to resume are exactly those with an artifact, each once and in the order of the query. */
  lemma {:induction false} ResumableAreThoseWithArtifacts(ids: seq<string>, hasArtifact: set<string>, keep: seq<bool>)
    requires |ids| <= |keep| && forall i :: 0 <= i < |ids| ==> keep[i] == (ids[i] in hasArtifact)
    ensures Selects(ids, keep, Resumable(ids, hasArtifact))
    decreases |ids|
  {
    if ids != [] {
      var init, last := ids[..|ids| - 1], ids[|ids| - 1];
      ResumableAreThoseWithArtifacts(init, hasArtifact, keep);
      SelectsNext(init, keep, Resumable(init, hasArtifact), last);
      assert init + [last] == ids && Resumable(init, hasArtifact) + [] == Resumable(init, hasArtifact);
    }
  }
}
