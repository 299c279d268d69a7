# Verification of the hosting platform's cores

This project models the parts of the Firecracker/Wasm hosting platform whose correctness does not depend on a kernel,
a database or a network, and proves what they promise over all inputs and all runs. What changes state in the platform
is a class with methods or a method with loops here, proved against specification functions; the promises are lemmas
about those functions and about runs of them. Calls out of the platform (publishing, Stripe, the database's answers) are
parameters that may say yes or no. A transaction is one step for the rows that it locks; what a handler or a task reads
without a lock before it commits is a step of its own, and anything may happen in between.

| file | what it holds |
|---|---|
| `EnvFile`, `PosixShell` | the file of environment variables that a guest's init script sources, and the part of the POSIX shell that reads it (sections 2.2.1, 2.2.2, 2.3 and 2.9.1 of the POSIX.1-2017 Shell Command Language) |
| `TapOwnership`, `TapDaemon` | who owns a TAP index between the pool, guards, the VM registry and pending releases: a state machine with freely interleaving events, and the daemon's data refining it |
| `GuestAddressing`, `EgressFilter` | index, device name, IP and MAC arithmetic, and the eBPF filter on the same addresses |
| `Outbox`, `ServiceEvents` | the transactional outbox and the service handlers that write to it |
| `Ledger`, `LiquidBilling`, `MetalBilling`, `Billing`, `BillingTables` | the credit ledger and Stripe webhooks, the two billing engines, runs of all of them together, and the handlers as statements over tables |
| `Invoices`, `LateCharges` | the invoice windows with several generators and failures, and charges that are posted behind the pointer |
| `MetalMetering`, `LiquidMetering` | drain-and-retry usage counters of the proxy and of the daemon |
| `TrafficPulse` | the chain from a request through debounced pulses and batched flushes to the idle check |
| `SseStream` | the CLI's incremental reader of server-sent events (section 9.2 of the WHATWG HTML standard) |
| `WagiResponse` | the parser of CGI responses (sections 6.2.1 and 6.3.3 of RFC 3875) |
| `ElfInspect` | the ELF inspector (System V gABI, chapter 5, Program Header) |
| `Prelude`, `Text`, `Decimal`, `Utf8` | shared vocabulary: iteration orders, string operations, numbers, UTF-8 (RFC 3629) |

## Where the code and its intent part ways

Each of these is a lemma with a concrete input, and where a promise holds under a condition, the exact condition is
beside it.

- The poller goes by `created_at`, which is when a transaction began. A resume that began before a stop and commits
  after it is published first, and the stop's deprovision then ends the resumed service
  (`ServiceEvents.StopUndoesALaterResume`). No pending provision is stamped before a pending deprovision of its service,
  after every step of a run, if and only if no provision commits with a stamp older than a deprovision pending by then
  (`ServiceEvents.StampsStayInOrderIff`).
- A restart, a rollback or a resume reads the service and commits later by id alone. One that has read before a delete
  and commits after it leaves a deleted service with a provision pending (`ServiceEvents.RestartOvertakesDelete`). A
  delete is final if and only if none such is open when it commits (`ServiceEvents.DeleteIsFinalIff`).
- The other way round, a delete decides from what it read whether a deprovision is needed, and can miss a restart that
  has been published meanwhile (`ServiceEvents.StaleDeleteLeavesAServiceRunning`). It leaves a deprovision if and only
  if the service was neither stopped nor failed when it read (`ServiceEvents.DeleteDeprovisionsIff`).
- A deploy under the slug of a stopped or failed service passes its check, marks the old service deleted and inserts the
  new one. But `services.slug` is UNIQUE over all rows (`migrations/V1__platform.sql:169`, which no migration takes
  back), so the insert fails and all is rolled back (`ServiceEvents.RedeployIsRolledBack`). A deploy commits if and only
  if no row has its slug, deleted rows and those of other workspaces included (`ServiceEvents.DeployCommitsIff`), and a
  slug belongs to its first service for good (`ServiceEvents.SlugBelongsToOneService`).
- The deletion of a workspace leaves the pending events of the services that it marks deleted in the outbox. Such a
  service is never provisioned again if and only if no provision of it was pending and no handler was about to provision
  it (`ServiceEvents.DeletedIsFinalIff`, `ServiceEvents.WorkspaceDeletionIsFinalIff`).
- The usage aggregator locks the usage events and not the workspaces. Two instances at once both take the rest of an
  allowance to be theirs (`Billing.TwoInstancesOverdraw`; in turn the second pays, `Billing.InTurnTheSecondPays`). The
  account of the allowance holds if and only if at each commit what was read still serves
  (`Billing.AllowanceIsIndependentOfBatchesIff`, `LiquidBilling.ServesIff`), for instance when no other batch of the
  workspace commits in between (`Billing.UndisturbedReadServes`). The counter stays within the allowance if and only if
  each batch read no less than is used by then or fits what is left (`Billing.AllowanceStaysInBoundsIff`).
- Invoices take no lock at all. Two generators invoice a window twice with nothing failing
  (`Invoices.TwoGeneratorsInvoiceTwice`), and so does one whose local insert or pointer update fails behind a paid
  invoice (`Invoices.FailedInsertInvoicesTwice`, `Invoices.FailedPointerInvoicesTwice`).
- A charge is stamped when its transaction begins. One that is posted after the pointer has passed its window is never
  invoiced (`LateCharges.LateChargeIsNotInvoiced`). Whatever fails, every window is invoiced at least once and in full
  if and only if no charge is posted behind the pointer or an open attempt
  (`Invoices.WindowsAreInvoicedAtLeastOnceIff`), and exactly once if and only if none is posted behind the pointer and
  no attempt fails behind a finalised invoice or succeeds where charges separate it from the pointer
  (`Invoices.InvoicesAreTheWindowsIff`). Over runs without such attempts a charge is invoiced once if and only if it was
  not stamped before the pointer when it was posted, and otherwise never (`LateCharges.ChargeIsInvoicedIff`).
- A pulse flushed while a service is still waking is lost, because the flush touches running rows only, and the next
  requests are debounced: the idle check can then stop a service that is being used
  (`TrafficPulse.WokenServiceIsNotProtected`). It spares a service if and only if its row is recent or was touched
  within the timeout (`TrafficPulse.SparedIffTouched`); a request protects a service that runs whenever a flush of its
  debounce interval happens (`TrafficPulse.RequestProtectsFromIdleStop`).
- The Metal cycle queues a suspension for every charge, whatever the balance
  (`MetalBilling.FundedWorkspaceIsSuspended`); it suspends only the depleted if and only if the price is zero or the
  balance did not exceed the price (`MetalBilling.SuspendsOnlyTheDepletedIff`). The reason given in the event is
  "balance depleted".
- Start-up cleanup releases by the name a stale row carries, which can free the index of a running VM
  (`TapOwnership.StaleRowFreesARunningIndex`), and a start goes on when the query that fills the set has failed
  (`TapOwnership.FailedInitFreesARunningIndex`). Over all rows and all answers of the three queries, a start is safe
  if and only if it is clean (`TapOwnership.StartupIsSafeIffClean`).
- Three paths drop a registry handle without releasing its index (`TapOwnership.DroppedIndicesLeak`). They keep
  ownership exclusive and leak exactly the indices they drop (`TapOwnership.LeaksExactlyWhatIsLost`).
- With one poller, events are first published in `created_at` order as long as no transaction commits with a stamp
  older than an event already published (`Outbox.FirstPublicationsAreOrdered`). A commit with an older stamp is
  published out of order (`Outbox.LateCommitIsPublishedOutOfOrder`), and for every commit the order is safe from then on
  if and only if its stamp is not older (`Outbox.EnqueueKeepsOrderIff`).
- The response parser looks for CRLFCRLF in the whole output before it looks for LFLF, so a response written with line
  feeds is parsed back if and only if its body contains no CRLFCRLF (`WagiResponse.LfRoundTripIffNoCrlfCrlf`).
- The ELF inspector checks that an entry of the declared size fits, not that the size holds the fields it reads: the
  bounds of 40 and 20 bytes are tight (`ElfInspect.SmallEntriesAreReadOutOfBounds`). Exactly which files are read out of
  bounds is `ElfInspect.PanicsIff`.
- The proxy's counters are keyed by slug and keep the service they were created for. Were a slug given to another
  service, its requests would be billed to the old one (`MetalMetering.RedeployedServiceIsNotBilled`); only the UNIQUE
  column keeps that from happening. What is billed, waiting or dropped for a service is its own if and only if every
  request counted under the slug was routed to the counter's service (`MetalMetering.ServicesAreBilledTheirOwnIff`).
- A comment in the eBPF program says that the gateway passes. The code drops it: it lies in the masked network
  (`EgressFilter.GatewayIsDroppedToo`).
- The prices in the comment at the head of `crates/api/src/billing.rs` are not those of
  `crates/common/src/pricing.rs`; the price of a Metal service is a parameter here, and that
  of Liquid invocations the constant in the code.

## Model

| member | source | states |
|---|---|---|
| EnvFile.BuildEnvFile | crates/daemon/src/rootfs.rs:206-230 | sourcing the file performs exactly the platform assignments and then the user's valid ones, in any visiting order, if and only if no value contains NUL; applied to any environment this is the environment overridden by the platform and then by the user |
| EnvFile.LexEscaped | crates/daemon/src/rootfs.rs:233-235 | the shell's single-quote lexer undoes the escaping, character for character, for every value |
| EnvFile.LexLine | crates/daemon/src/rootfs.rs:225 | a printed line reads back as one word, the assignment, and nothing else |
| EnvFile.ValidKeysAreNames | crates/daemon/src/rootfs.rs:239-249 | the keys accepted are exactly the names of the shell |
| EnvFile.SourceLines | crates/daemon/src/rootfs.rs:225-229 | sourcing the joined lines yields the assignments in order and no other command |
| EnvFile.ApplyAll | crates/daemon/src/rootfs.rs:214-226 | the assignments amount to the platform's variables overridden by the user's, for every order |
| TapOwnership.LeastFreeFrom | crates/daemon/src/provision.rs:138-143 | the index chosen is the least free one and never exceeds the number in use |
| TapOwnership.RunIsSafe | crates/daemon/src/provision.rs:136-195 | in every interleaving each held index is in use, in range, and has one holder |
| TapOwnership.ServicesNeverShareAnAddress | crates/daemon/src/provision.rs:689-703 | in every reachable state two registered services differ in IP and MAC, and neither is the gateway |
| TapOwnership.LeaksExactlyWhatIsLost | crates/daemon/src/tasks/suspend.rs:112-124 | the indices in use but held by nobody are exactly those that the run dropped without releasing; without such steps the in-use set is the held set |
| TapOwnership.IndicesComeBack | crates/daemon/src/provision.rs:136-195 | a provision that is abandoned, and one that succeeds and is taken down again, leave the pool and its holders as they found them |
| TapOwnership.DroppedIndicesLeak | crates/daemon/src/tasks/suspend.rs:116-120 | a discarded handle, an abandoned release and an overwritten registry entry each leave an index in use that nobody holds |
| TapOwnership.HandsOutBelowSize | crates/daemon/src/provision.rs:136-151 | the index handed out was free and is smaller than the number in use afterwards |
| TapOwnership.IndicesStayBelowPeak | crates/daemon/src/provision.rs:136-151 | a run that never has more than k indices in use never hands out an index of k or more, from any start |
| TapOwnership.RefusedOnlyWhenFull | crates/daemon/src/provision.rs:144-148 | over a run without losses from a safe state that leaks nothing, an allocation is refused if and only if 3969 holders exist |
| TapOwnership.StartupHolds | crates/daemon/src/provision.rs:97-132 | after a start the indices in use are those of running and provisioning rows less those of provisioning and failed ones, as far as the queries are answered, and exactly the running rows with a process hold theirs |
| TapOwnership.StartupIsSafeIffClean | crates/daemon/src/provision.rs:627-687 | for all rows and all answers of the three start-up queries, the start is safe if and only if nothing is rebuilt, or the set was filled, rebuilt VMs have distinct indices and a clean-up that ran released none of them |
| TapOwnership.StaleRowFreesARunningIndex | crates/daemon/src/provision.rs:673-682 | a stale row with a running VM's name frees that VM's index, and the next allocation hands it out again |
| TapOwnership.FailedInitFreesARunningIndex | crates/daemon/src/provision.rs:97-132 | so does, with clean rows, a failed query for the set followed by a successful rebuild of the registry |
| TapDaemon.InitTapIndices | crates/daemon/src/provision.rs:97-132 | the set holds exactly the indices of running and provisioning rows, or nothing if the database does not answer |
| TapDaemon.ReleaseStale | crates/daemon/src/provision.rs:648-687 | exactly the indices of stale rows leave the set, none without an answer |
| TapDaemon.RebuildRegistry | crates/daemon/src/startup.rs:243-284 | the registry holds exactly the running rows with a process, the last row winning, or nothing without an answer |
| TapDaemon.FirstGap | crates/daemon/src/provision.rs:138-143 | the scan over the ordered set stops at the least free index |
| TapDaemon.Daemon.constructor | crates/daemon/src/run.rs:52-56 | for every answer of each of its queries the start establishes the refinement of the ownership state |
| TapDaemon.Daemon.AllocateTapIndex | crates/daemon/src/provision.rs:136-151 | returns and inserts the least index not in use, and fails exactly when 0 to 3968 are all taken |
| TapDaemon.Daemon.AllocateGuarded | crates/daemon/src/provision.rs:695-700 | allocation with its guard refines the ownership step |
| TapDaemon.Daemon.ReleaseTapIndex | crates/daemon/src/provision.rs:154-158 | removes the index the name parses to, and changes nothing for other names |
| TapDaemon.Daemon.DropGuard | crates/daemon/src/provision.rs:182-195 | an armed guard passes its index to one pending release, a defused one does nothing |
| TapDaemon.Daemon.RegisterAndDefuse | crates/daemon/src/provision.rs:790-801 | registering and defusing moves the index from the guard to the handle |
| TapDaemon.Daemon.TakeHandle | crates/daemon/src/provision.rs:579-597 | the handle leaves the registry once and its index becomes a pending release; a second call finds nothing |
| TapDaemon.Daemon.FinishRelease | crates/daemon/src/run.rs:460-468 | releasing the taken name frees exactly the index it held |
| TapDaemon.Daemon.ReapHandles | crates/daemon/src/tasks/crash_watcher.rs:36-66 | all dead handles leave the registry in one step, each with its own pending release |
| TapDaemon.Daemon.DiscardHandle | crates/daemon/src/tasks/suspend.rs:116-120 | the handle is dropped and its index stays in use |
| GuestAddressing.GuestIpDenotes | crates/common/src/networking.rs:24-30 | the printed address parses to 172.16.(i/63).(4(i%63)+2), all octets in range, exactly up to index 3968 |
| GuestAddressing.AddressesAreDistinct | crates/common/src/networking.rs:7-30 | distinct indices have distinct addresses, none of them the gateway's |
| GuestAddressing.MacDenotes | crates/daemon/src/provision.rs:729 | the MAC is AA:FC:00:00 and the two bytes of the index, high byte first, in upper-case hexadecimal |
| GuestAddressing.MacInjective | crates/daemon/src/provision.rs:729 | distinct indices have distinct MAC addresses |
| GuestAddressing.TapNameParses | crates/daemon/src/provision.rs:154-158 | the device name parses back to its index |
| EgressFilter.DropsExactlyTheGuestSubnet | crates/ebpf-programs/src/main.rs:147-204 | a frame is dropped if and only if it is IPv4 to 172.16.0.0/12; short frames pass |
| EgressFilter.NoFrameReachesAGuest | crates/ebpf-programs/src/main.rs:172-204 | every IPv4 frame to any guest address is dropped |
| EgressFilter.GatewayIsDroppedToo | crates/ebpf-programs/src/main.rs:193-203 | a frame to the gateway is dropped, contrary to the comment |
| Outbox.RunKeepsAccounts | crates/api/src/outbox.rs:52-117 | after every run each committed event is in exactly one of the table, the published and deleted ones, and the cancelled or purged ones, and nothing else was published |
| Outbox.FailedPollsOnlyDelay | crates/api/src/outbox.rs:91-113 | after any number of polls that fail at any row or at the commit, successful ones drain the table as if none had failed, and what waited still waits or was published |
| Outbox.SuccessfulPollsDrain | crates/api/src/outbox.rs:64-117 | successful polls empty the table batch by batch, and what waited still waits or was published |
| Outbox.TwoPollersShareTheOldest | crates/api/src/outbox.rs:73-82 | two pollers at once, the second skipping what the first has locked, take different rows and together the oldest of the table |
| Outbox.FirstPublicationsAreOrdered | crates/api/src/outbox.rs:73-107 | with one poller and no commit stamped before an event already published, first publications are in created_at order despite failures and duplicates |
| Outbox.EnqueueKeepsOrderIff | crates/api/src/outbox.rs:73-82 | a commit is followed by first publications in order, however the run goes on under the assumptions, if and only if it is not stamped before an event already published |
| Outbox.LateCommitIsPublishedOutOfOrder | crates/api/src/outbox.rs:73-82 | a commit with an older stamp after a poll is published out of order |
| Outbox.WaitsUntilTakenOutIff | crates/api/src/outbox.rs:52-117 | over every run an event waits until a poll that succeeds has it among its rows, a cancellation names its service, or a purge has a cutoff after its stamp; nothing else takes it out |
| Outbox.OutboxTable.Insert | crates/api/src/routes/deployments.rs:422-430 | appends one row with a fresh id |
| Outbox.OutboxTable.DeleteFor | crates/api/src/routes/services.rs:119-125 | deletes exactly the pending provisions and deprovisions of the service, and no other row |
| Outbox.OutboxTable.CleanupStale | crates/api/src/outbox.rs:52-62 | deletes exactly the rows stamped before the cutoff |
| Outbox.OutboxTable.Publish | crates/api/src/outbox.rs:89-107 | publishes the selection up to the first failure and collects the ids of exactly those rows |
| Outbox.OutboxTable.PollOnce | crates/api/src/outbox.rs:64-117 | one poll, with rollback at any point, is the poll step |
| ServiceEvents.PendingEventsAreShaped | crates/api/src/routes/services.rs:98-144 | over every run of overlapping handlers a service has at most one deprovision pending, and its pending provisions were committed after it |
| ServiceEvents.StampsStayInOrderIff | crates/api/src/outbox.rs:73-82 | over every run its pending provisions are never stamped before its pending deprovision, by which the poller goes, if and only if no provision commits with a stamp older than a deprovision pending by then |
| ServiceEvents.StopUndoesALaterResume | crates/api/src/billing.rs:671-734 | a resume stamped before a stop and committed after it is published before the stop's deprovision by every poll of two rows or more |
| ServiceEvents.StopLeavesOneDeprovision | crates/api/src/routes/services.rs:98-144 | after a committed stop the service's pending rows are exactly one deprovision |
| ServiceEvents.DeleteLeavesItsDeprovision | crates/api/src/routes/services.rs:187-230 | after a committed delete they are exactly the deprovision that it had decided on |
| ServiceEvents.DeleteDeprovisionsIff | crates/api/src/routes/services.rs:182-230 | over every run from the read of a delete to its commit, what is pending for the service afterwards is one deprovision if the status read was neither stopped nor failed, and nothing otherwise; so a deprovision is left whenever the service needs one at the commit if and only if it needed one when read or needs none at the commit |
| ServiceEvents.StepRemovesIff | crates/api/src/routes/services.rs:118-125 | a step takes an event out of the outbox if and only if it stops or deletes the service of the event, publishes the event with success, or purges it |
| ServiceEvents.OthersKeepTheirEvents | crates/api/src/routes/services.rs:200-207 | a stop and the commit of a delete leave every suspend event and the events of all other services as they were |
| ServiceEvents.DeletedGetsNoNewProvision | crates/api/src/routes/services.rs:195-230 | while no open handler plans to provision a deleted service, no run makes a provision for it pending or publishes one that was not pending already |
| ServiceEvents.DeleteIsFinalIff | crates/api/src/routes/services.rs:195-230 | no continuation ever has a provision of the deleted service pending if and only if no restart, rollback or resume that read it is still open when the delete commits |
| ServiceEvents.NoProvisionAfterDelete | crates/api/src/routes/services.rs:195-230 | then none is published for it either |
| ServiceEvents.RestartOvertakesDelete | crates/api/src/routes/services.rs:371-390 | a restart that read before a delete and commits after it provisions the deleted service |
| ServiceEvents.StaleDeleteLeavesAServiceRunning | crates/api/src/routes/services.rs:182-187 | a delete that read before a restart and commits after its event was published leaves no deprovision |
| ServiceEvents.DeletedIsFinalIff | crates/api/src/routes/services.rs:195-230 | of a service marked deleted by whatever path no run ever has a provision pending if and only if none is pending and no handler that read it is still to provision it |
| ServiceEvents.WorkspaceDeletionIsFinalIff | crates/api/src/routes/workspaces.rs:121-150 | the same of the services of a deleted workspace |
| ServiceEvents.DeployCommitsIff | crates/api/src/routes/deployments.rs:299-350 | a deploy commits if and only if no row has its id or slug, adding one provisioning service and one provision; otherwise it changes nothing, so marking old services deleted never takes effect |
| ServiceEvents.SlugBelongsToOneService | migrations/V1__platform.sql:169 | over every run, however checks and commits of deploys overlap, no two services share a slug, and a service keeps row, workspace, slug and deletion for good |
| ServiceEvents.RedeployIsRolledBack | crates/api/src/routes/deployments.rs:271-350 | a stopped service's slug is deployed anew: the check passes and the transaction changes nothing |
| ServiceEvents.Api.DeployChecks | crates/api/src/routes/deployments.rs:271-297 | the check in its own transaction refuses exactly while the slug is active |
| ServiceEvents.Api.DeployCommits | crates/api/src/routes/deployments.rs:299-446 | the update of old services and the insert that takes it back when it fails amount to the deploy, which checks nothing again |
| ServiceEvents.Api.StopService | crates/api/src/routes/services.rs:98-144 | likewise for a stop, including its refusal |
| ServiceEvents.Api.DeleteReads | crates/api/src/routes/services.rs:164-187 | refuses exactly what is not there or already deleted, and decides on a deprovision exactly for what is neither stopped nor failed |
| ServiceEvents.Api.DeleteCommits | crates/api/src/routes/services.rs:189-230 | the transaction carries that decision out |
| ServiceEvents.ProvisionIsPlannedIff | crates/api/src/routes/services.rs:268-300 | a restart plans to provision exactly what is stopped or failed, a rollback anything, and a resume what is suspended, as long as it is not deleted; reading changes nothing else |
| ServiceEvents.Api.RestartReads | crates/api/src/routes/services.rs:268-300 | accepts exactly live services that are stopped or failed |
| ServiceEvents.Api.ProvisionCommits | crates/api/src/routes/services.rs:371-390 | the transaction provisions by id, whatever has become of the row |
| ServiceEvents.Api.RollbackReads | crates/api/src/routes/deployments.rs:543-554 | accepts exactly live services |
| ServiceEvents.Api.DeleteWorkspace | crates/api/src/routes/workspaces.rs:121-150 | marks the live services of the workspace deleted and stopped, and leaves the outbox alone |
| ServiceEvents.Api.UnsuspendReads | crates/api/src/billing.rs:457-568 | plans to provision exactly the suspended services that have an artifact, in the order of the query |
| ServiceEvents.ResumableAreThoseWithArtifacts | crates/api/src/billing.rs:457-568 | the services to resume are exactly those with an artifact, each once and in the order of the query |
| Ledger.PostKeepsBalanced | crates/api/src/billing.rs:384-414 | a posting keeps balances and recorded balances in step with the ledger |
| Ledger.CheckoutCredits | crates/api/src/billing.rs:671-734 | a top-up is credited exactly when a live workspace carries its customer and no row its session; the payer alone moves, the row says by how much and what for, and services resume exactly when the balance left is positive |
| Ledger.RefundDebits | crates/api/src/billing.rs:745-797 | a refund takes that amount back, and queues a suspension exactly when nothing is left and something is running |
| Ledger.SuspendsIff | crates/api/src/billing.rs:384-452 | a debit queues a suspension exactly when it leaves nothing and some service of the workspace is running or being provisioned and not deleted |
| Ledger.CheckoutIsIdempotent | crates/api/src/billing.rs:680-723 | sessions stay unique, and repeating a credited session, with any contents, changes nothing |
| Ledger.ReversalUndoesTopUp | crates/api/src/billing.rs:812-869 | whatever happens before the look into the ledger and between it and the transaction, a failed payment takes back exactly what was credited, and from that account alone, if and only if the look finds no other top-up for the intent; otherwise nothing |
| Ledger.ReversesNothing | crates/api/src/billing.rs:812-869 | a failed payment that no top-up is recorded for is ignored, and one whose workspace is gone is refused |
| Billing.FoundTopUpsCanBeReversed | crates/api/src/billing.rs:812-840 | a top-up that was found can be reversed after any run |
| LiquidBilling.CostIsExactUpToOverflow | crates/api/src/billing.rs:227-231 | the 64-bit cost is three tenths rounded down if and only if the count is at most 30,744,573,456,182 |
| LiquidBilling.GroupsBillEachWorkspaceOnce | crates/api/src/billing.rs:202-250 | a batch moves each of its workspaces once, by the row its query returned, and no other, whatever the group order |
| LiquidBilling.BilledOnce | crates/api/src/billing.rs:181-196 | an event is billed by a batch exactly when it is in it, and no batch open afterwards contains it |
| LiquidBilling.BatchKeepsAllowanceIff | crates/api/src/billing.rs:202-246 | a batch keeps the account of free use, billable count and charge if and only if the allowance it read still gives the free part that is due when it commits |
| LiquidBilling.ServesIff | crates/api/src/billing.rs:210-213 | it does exactly if as much is left as was read, or the count fits what either leaves |
| LiquidBilling.BatchStaysInAllowanceIff | crates/api/src/billing.rs:210-225 | a batch moves the counter past the allowance exactly if it read less than is used by then and its count does not fit what is left |
| LiquidBilling.CommitKeepsOpen | crates/api/src/billing.rs:182-200 | the commit of one batch leaves what another has read of its own events true |
| LiquidBilling.ResetBeginsAPeriod | crates/api/src/billing.rs:355-376 | a reset begins a new account with nothing used for each due workspace that is not deleted, and leaves every other account as it was |
| LiquidBilling.GroupSuspendsOnlyTheDepleted | crates/api/src/billing.rs:229-238 | a suspension is queued exactly when a fee was charged, nothing is left and an active service exists |
| MetalBilling.PassChargesOnce | crates/api/src/billing.rs:278-327 | a pass charges each of its services one month and advances its cycle once, and touches no other |
| MetalBilling.ChargeableIff | crates/api/src/billing.rs:279-288 | a pass can charge exactly the services with a price that are running or being provisioned, are not deleted and began their cycle 30 days ago or earlier |
| MetalBilling.DeployedIsDueIff | crates/api/src/routes/deployments.rs:314-377 | a deploy adds one service, takes the first month from its workspace alone, and is charged again from 30 days later on if it has a price, otherwise never |
| MetalBilling.PassKeepsChargedToDate | crates/api/src/billing.rs:278-327 | a pass keeps the amount charged equal to the price times one plus the renewals |
| MetalBilling.RepeatedPassesCatchUp | crates/api/src/billing.rs:278-327 | n passes at one time take min(n, overdue) cycles off an eligible service and charge exactly those |
| MetalBilling.PassSuspendsForEveryCharge | crates/api/src/billing.rs:299-308 | a pass queues exactly one suspension for each charge, whatever the balances |
| MetalBilling.SuspendsOnlyTheDepletedIff | crates/api/src/billing.rs:299-308 | a charge suspends only the depleted if and only if it is free or the balance did not exceed the price |
| MetalBilling.FundedWorkspaceIsSuspended | crates/api/src/billing.rs:307-308 | a workspace with a hundred months paid is suspended at its first renewal |
| Billing.LedgerAddsUp | crates/api/src/billing.rs:384-414 | over every run of all operations, with any number of overlapping aggregations, each balance is the opening balance plus its ledger, and each row records its prefix sum |
| Billing.BalancesAreExplained | crates/api/src/billing.rs:176-452 | over every run a balance is where it began plus the top-ups credited, less refunds, reversals, months of Metal services and fees of aggregations that happened to its workspace, and nothing else |
| Billing.RunKeepsLocks | crates/api/src/billing.rs:181-200 | over every run open aggregations hold different events and each can commit with what it read |
| Billing.EventsAreBilledOnce | crates/api/src/billing.rs:181-246 | over every run a usage event is billed by at most one aggregation, and by one exactly if it is marked in the end |
| Billing.UsageStaysOnRecord | crates/api/src/billing.rs:122-155 | over every run what was recorded of a workspace's usage is in the table, billed or waiting, and nothing else |
| Billing.GivenUpEventsAreFree | crates/api/src/billing.rs:176-203 | the events of an aggregation that failed can be queried again by any free instance, with the books unchanged |
| Billing.SessionsAreCreditedOnce | crates/api/src/billing.rs:680-701 | over every run no checkout session is in the ledger twice |
| Billing.ServicesAreChargedToDate | crates/api/src/routes/deployments.rs:352-377 | over every run each service has been charged its price times one plus (cycle start - deploy time)/30 days, and no charged month starts in the future |
| Billing.MetalChargesAreWholeCents | crates/api/src/routes/deployments.rs:353-354 | over every run Metal charges are whole cents |
| Billing.AllowanceIsIndependentOfBatchesIff | crates/api/src/billing.rs:202-246 | over every run within a period, any batching and any number of instances: after every event free use is min(total, remaining allowance), the billable count is the rest, and the charge is three tenths of it less at most nine tenths per batch, if and only if at every commit what the batch read still serves |
| Billing.UndisturbedReadServes | crates/api/src/billing.rs:182-200 | it does if between query and commit no other batch of the workspace commits and its counter is not reset |
| Billing.InTurnTheSecondPays | crates/api/src/billing.rs:202-240 | two aggregations in turn: the second thousand is paid for |
| Billing.TwoInstancesOverdraw | crates/api/src/billing.rs:202-225 | the same two at once: both thousands are free and the counter passes the allowance |
| Billing.AllowanceStaysInBoundsIff | crates/api/src/billing.rs:202-225 | over every run, resets included, the counter is never negative, and stays within the allowance after every event if and only if each committing batch read no less than is used by then or fits what is left |
| BillingTables.PatchReachesThePlaceholder | crates/api/src/billing.rs:684-723 | patching by session reaches exactly the placeholder row just inserted |
| BillingTables.Tables.DeductBalance | crates/api/src/billing.rs:384-414 | balance and ledger row change together and the new balance is returned |
| BillingTables.Tables.HandleCheckoutCompleted | crates/api/src/billing.rs:635-739 | insert, credit, patch and both rollbacks amount to the checkout step; malformed events change nothing |
| BillingTables.Tables.HandleChargeRefunded | crates/api/src/billing.rs:741-802 | the refund step, including zero amounts and unknown customers |
| BillingTables.Tables.LookUpTopUp | crates/api/src/billing.rs:804-827 | the query before the transaction: none, exactly one, or an error on several |
| BillingTables.Tables.ReverseTopUp | crates/api/src/billing.rs:829-869 | the transaction takes back what was found, however the tables have changed since |
| BillingTables.Tables.ChargeUsage | crates/api/src/billing.rs:227-238 | charges a positive cost once and suspends when nothing is left |
| BillingTables.Tables.BillGroup | crates/api/src/billing.rs:202-250 | one row of the aggregation with its marks |
| BillingTables.Tables.AggregateOnce | crates/api/src/billing.rs:202-248 | the loop over what the query returned is the commit of its batch, though others and its own earlier rows have changed the tables meanwhile |
| BillingTables.Tables.BillMonth | crates/api/src/billing.rs:290-319 | one row of the Metal cycle |
| BillingTables.Tables.MetalBillingOnce | crates/api/src/billing.rs:274-332 | the loop over due services is the pass |
| BillingTables.Tables.Deploy | crates/api/src/routes/deployments.rs:323-377 | service row, first month and ledger row of a deploy |
| Invoices.WindowsTileTime | crates/api/src/billing.rs:1091-1096 | every instant from the creation on lies in exactly one window |
| Invoices.InvoicesAreOfWindows | crates/api/src/billing.rs:1062-1112 | with any number of generators, whatever fails and whenever charges are posted, the pointer ends a window that has passed, and every invoice is that of a charged window that has passed, for what was posted by the time of its attempt |
| Invoices.WindowsAreInvoicedAtLeastOnceIff | crates/api/src/billing.rs:1062-1112 | after every event each window before the pointer or an open attempt has an invoice, at Stripe and locally, for all that is charged in it, if and only if no charge is posted behind them |
| Invoices.InvoicesAreTheWindowsIff | crates/api/src/billing.rs:1084-1112 | the invoices are, after every event and in both places, exactly one per charged window before the pointer, for all that is charged in it, if and only if no charge is posted behind the pointer and no attempt fails behind a finalised invoice or succeeds where charges separate what it read from the pointer |
| Invoices.CurrentAttemptsDoNotStray | crates/api/src/billing.rs:1091-1096 | an attempt is none of these if the pointer is still what it read and nothing fails once Stripe has finalised |
| Invoices.TwoGeneratorsInvoiceTwice | crates/api/src/billing.rs:1066-1083 | two generators that read the same pointer invoice the window twice with nothing failing |
| Invoices.FailedInsertInvoicesTwice | crates/api/src/billing.rs:1213-1242 | a failed local insert makes Stripe invoice the window twice |
| Invoices.FailedPointerInvoicesTwice | crates/api/src/billing.rs:1244-1250 | a failed pointer update makes it twice in both places |
| Invoices.InvoiceLosesLessThanACent | crates/api/src/billing.rs:1162-1165 | the two floored parts are the floor of the total, less than a cent below it |
| Invoices.WindowsCoverTheCharges | crates/api/src/billing.rs:1123-1165 | the first n invoices cover every charge before the pointer once, up to less than a cent each |
| Invoices.PostingCharges | crates/api/src/billing.rs:1122-1147 | a posting adds its absolute amount to each half-open window that it is stamped in if it is a monthly Metal charge or a usage charge of the workspace, and otherwise nothing |
| LateCharges.InvoicesAreOfTimelyCharges | crates/api/src/billing.rs:1084-1263 | over every run in which no attempt strays, the invoices are exactly those of the windows over the charges that were not posted behind the pointer |
| LateCharges.ChargeIsInvoicedIff | crates/api/src/billing.rs:1123-1165 | over such a run a charge whose window has passed is in exactly one invoice, in both places, if and only if its stamp was not before the pointer when it was posted, and otherwise in none |
| LateCharges.InvoicesCoverTheCharges | crates/api/src/billing.rs:1114-1263 | over such a run the invoices cover the timely charges up to less than a cent each, and to the micro-credit all charges before the pointer if and only if none was posted behind it |
| LateCharges.LateChargeIsNotInvoiced | crates/api/src/routes/deployments.rs:352-446 | a run in which a charge is posted behind the pointer: its window has charges and no invoice |
| Invoices.Invoicer.GenerateWorkspaceInvoice | crates/api/src/billing.rs:1114-1263 | one attempt with any failure: only success moves the pointer, to the end of the window read; Stripe gets one invoice exactly if something was charged and Stripe did not fail; no local row lacks its invoice at Stripe |
| MetalMetering.UsageIsConserved | crates/proxy/src/router.rs:347-397 | at every point what was counted for a slug is in its counter, published, in the backlog or dropped, invocations and milliseconds alike |
| MetalMetering.SnapshotTakesAll | crates/proxy/src/router.rs:350-364 | the snapshot takes out of each counter exactly what it holds, in any order |
| MetalMetering.FlushSettlesEachEvent | crates/proxy/src/router.rs:364-390 | each event of a flush, retried or drained, is published if its own publish succeeded and otherwise waits or falls to the cap, all in order |
| MetalMetering.FlushAllOrNothing | crates/proxy/src/router.rs:364-390 | a flush whose publishes all succeed leaves nothing waiting, and one whose publishes all fail publishes nothing and keeps all in order |
| MetalMetering.NoEmptyUsage | crates/proxy/src/router.rs:352-361 | over every run no event is sent for a counter that was not used |
| MetalMetering.BacklogIsOldestFirst | crates/proxy/src/router.rs:366-397 | after every step the backlog is oldest first, at most 1000 long, and no newer than anything dropped |
| MetalMetering.FlushDropsTheOldest | crates/proxy/src/router.rs:392-397 | at any point of a run a flush drops something exactly when more than 1000 events wait, then keeps 1000, and drops nothing drained later than what it keeps |
| MetalMetering.FirstServiceKeepsTheSlug | crates/proxy/src/router.rs:452-467 | over every run a slug's counter keeps the service it was created for |
| MetalMetering.RunNamesCounters | crates/proxy/src/router.rs:350-390 | over every run each event published, waiting or dropped carries the service of its slug's counter |
| MetalMetering.AllIsBilledToTheCounter | crates/proxy/src/router.rs:347-397 | all that was counted under a slug is accounted for under its counter's service and nothing under any other |
| MetalMetering.ServicesAreBilledTheirOwnIff | crates/proxy/src/router.rs:452-480 | what is accounted for under each service, that is billed, waiting or dropped, is what was counted of its own requests if and only if all requests counted under the slug were routed to the counter's service |
| MetalMetering.RedeployedServiceIsNotBilled | crates/proxy/src/router.rs:452-467 | a run in which a slug passes to another service: the new one's invocation is billed to the old one |
| MetalMetering.Meter.CountMetalInvocation | crates/proxy/src/router.rs:452-467 | what is accounted for grows by one invocation of the slug and nothing else, under the service that the slug's counter had or now gets |
| MetalMetering.Meter.TryCountMetal | crates/proxy/src/router.rs:472-480 | the same exactly when the slug has a counter; otherwise nothing changes and the caller is told |
| MetalMetering.Meter.Logging | crates/proxy/src/router.rs:298-305 | what is accounted for grows by the duration exactly when the slug has a counter, and no counter is created |
| MetalMetering.Meter.DrainCounters | crates/proxy/src/router.rs:350-364 | collects and zeroes every counter |
| MetalMetering.Meter.PublishAll | crates/proxy/src/router.rs:366-390 | publishes in order and queues what fails |
| MetalMetering.Meter.Flush | crates/proxy/src/router.rs:349-397 | retry, publish and cap are the flush step |
| LiquidMetering.UsageIsConserved | crates/daemon/src/tasks/usage.rs:27-65 | at every point what was counted is live, in the backlog, published or lost |
| LiquidMetering.StepLoses | crates/daemon/src/tasks/usage.rs:55-65 | only removal or replacement of a handle, pruning and the safety valve lose counts, exactly what they remove |
| LiquidMetering.RegisteredServicesLoseNothing | crates/daemon/src/tasks/usage.rs:31-56 | while a service stays registered and the backlog is not cleared, nothing counted for it is lost |
| LiquidMetering.TickPrunesTheBacklog | crates/daemon/src/tasks/usage.rs:55-65 | after a tick the backlog names registered services only and is below the cap |
| LiquidMetering.TickReportsOnce | crates/daemon/src/tasks/usage.rs:31-54 | a tick reports each service once with all that is unpublished, whatever the order and the other services |
| LiquidMetering.NoEmptyReports | crates/daemon/src/tasks/usage.rs:31-40 | over every run no report is sent for a service that was not used |
| LiquidMetering.TickIsARun | crates/daemon/src/tasks/usage.rs:27-65 | an uninterrupted tick is one of the interleaved runs |
| LiquidMetering.Reporter.ReportService | crates/daemon/src/tasks/usage.rs:31-54 | one service of a tick |
| LiquidMetering.Reporter.Retain | crates/daemon/src/tasks/usage.rs:55-65 | pruning and the safety valve |
| LiquidMetering.Reporter.Tick | crates/daemon/src/tasks/usage.rs:27-65 | the loop over the registry is the tick |
| TrafficPulse.SweeperIsInvisible | crates/proxy/src/router.rs:407-420 | published pulses and everything downstream equal those of a cache that is never swept |
| TrafficPulse.PulsesAreSpaced | crates/proxy/src/router.rs:533-543 | pulses of one slug are at least the debounce interval apart |
| TrafficPulse.RequestsAreCovered | crates/proxy/src/router.rs:530-557 | every request at t has a pulse of its slug in (t - D, t] |
| TrafficPulse.RequestProtectsFromIdleStop | crates/daemon/src/tasks/idle.rs:125-143 | a request at t protects a service that runs at the flushes of its interval from every check in [t + W, t + T - D] |
| TrafficPulse.SparedIffTouched | crates/daemon/src/tasks/idle.rs:125-143 | a check spares a running service if and only if its row is recent or was touched within the timeout |
| TrafficPulse.WokenServiceIsNotProtected | crates/daemon/src/tasks/pulse.rs:42-50 | a service woken between its pulse's publication and flush is stopped although it is being used |
| TrafficPulse.PulseCache.MaybePublishPulse | crates/proxy/src/router.rs:530-543 | publishes exactly when the slug's entry is missing or expired, and then renews it |
| TrafficPulse.PulseCache.Sweep | crates/proxy/src/router.rs:412-413 | keeps exactly the entries younger than twice the interval |
| TrafficPulse.PulseSubscriber.Receive | crates/daemon/src/tasks/pulse.rs:35-41 | a slug is forgotten only while 10,000 others wait, and never displaces one of them |
| TrafficPulse.PulseSubscriber.Flush | crates/daemon/src/tasks/pulse.rs:42-56 | empties the pending set and touches exactly the running rows in it, if the database answers |
| TrafficPulse.PulseSubscriber.IdleCheck | crates/daemon/src/tasks/idle.rs:125-143 | a running service goes on running exactly if it was requested within the timeout, the check is disabled or the database does not answer; none is started |
| SseStream.DrainIsTheLeftmostSplit | crates/cli/src/commands/service/deploy.rs:124-128 | draining computes the leftmost split on blank lines, and there is only one |
| SseStream.DrainAppend | crates/cli/src/commands/service/deploy.rs:118-128 | draining early or late gives the same blocks |
| SseStream.ServerMessagesAreRead | crates/api/src/routes/deployments.rs:777-798 | whatever blocks the server writes, keep-alives included, the client reads exactly their messages, in order and once each |
| SseStream.EventIsOfTheFirstDataLine | crates/cli/src/commands/service/deploy.rs:128-130 | a block's event is read from its first line that starts with `data: `, whatever stands around it; a block without one is skipped |
| SseStream.PrefixDecides | crates/cli/src/commands/service/deploy.rs:133-148 | after a terminal step the rest of the stream does not matter |
| SseStream.OutcomeIff | crates/cli/src/commands/service/deploy.rs:132-150 | the loop shows the events up to the first whose step is running, ready or failed and ends there as live, live or failed; it shows all and ends with the stream exactly if there is none |
| SseStream.OverflowsIff | crates/cli/src/commands/service/deploy.rs:120-124 | the stream is refused as too large exactly if some chunk, added to the unfinished block before it, exceeds the limit while all events so far are progress |
| SseStream.DrainBuffer | crates/cli/src/commands/service/deploy.rs:125-150 | the inner loop shows the events up to the first terminal step |
| SseStream.Follow | crates/cli/src/commands/service/deploy.rs:113-152 | unless the buffer overflows, what is shown and how the loop ends depend on the whole text only, not on its chunks; and exactly when it overflows |
| WagiResponse.ParseWagiResponse | crates/daemon/src/wasm_http.rs:468-506 | the line loop is the parser that the round trips are about |
| WagiResponse.FindBlankLine | crates/daemon/src/wasm_http.rs:511-523 | the blank line found is the one that ends the printed head |
| WagiResponse.HeadReadsBack | crates/daemon/src/wasm_http.rs:477-496 | status and headers of a printed head read back in order |
| WagiResponse.CrlfRoundTrip | crates/daemon/src/wasm_http.rs:468-523 | parsing undoes printing with CRLF for any or no 16-bit status, any well-formed headers and arbitrary body |
| WagiResponse.LfRoundTripIffNoCrlfCrlf | crates/daemon/src/wasm_http.rs:511-519 | the same with line feeds if and only if the body contains no CRLFCRLF |
| WagiResponse.WithoutBlankLineAllIsBody | crates/daemon/src/wasm_http.rs:508-519 | output without a blank line is all body, with status 200 and a plain-text content type |
| WagiResponse.LineIsField | crates/daemon/src/wasm_http.rs:477-495 | a line is a field, cut at its first colon and stripped of white space on all sides, a status in any case; without a colon it is skipped |
| WagiResponse.StatusIsTheFirstWord | crates/daemon/src/wasm_http.rs:484-490 | a status is read up to its first white space, and is 200 if that is no 16-bit number |
| Utf8.DecodeEncode | crates/daemon/src/wasm_http.rs:471-472 | strict UTF-8 decoding undoes encoding |
| Utf8.DecodeIff | crates/daemon/src/wasm_http.rs:471-472 | decoding is strict: bytes are accepted as a text if and only if they are its encoding |
| ElfInspect.CheckElfCompat | crates/common/src/artifact.rs:76-149 | the scan with its early returns is the inspection |
| ElfInspect.HeaderReadsBack | crates/common/src/artifact.rs:82-103 | a file header written field by field as the gABI lays it out, 64-bit or 32-bit, is the header that is read |
| ElfInspect.EntryReadsBack | crates/common/src/artifact.rs:112-128 | likewise for type, offset and size of a program header entry at any place |
| ElfInspect.ImageIsClassifiedByItsInterpreter | crates/common/src/artifact.rs:108-144 | an image is classified by what its first PT_INTERP segment holds |
| ElfInspect.ImageWithoutInterpreterIsStatic | crates/common/src/artifact.rs:108-148 | an image without a PT_INTERP segment is static |
| ElfInspect.NotElfIff | crates/common/src/artifact.rs:76-104 | a file is no ELF exactly if it is shorter than 64 bytes, lacks the magic bytes, or has a class other than 1 and 2 |
| ElfInspect.FirstInterpDecides | crates/common/src/artifact.rs:108-148 | the first PT_INTERP decides; without one the verdict is static |
| ElfInspect.PanicsIff | crates/common/src/artifact.rs:108-132 | a file is read out of bounds if and only if some entry has its declared end in the file but not its type, or is a PT_INTERP without the fields read or with a segment whose end wraps into the file, and all entries before it are in the file and of other types |
| ElfInspect.SaneImagesAreReadInBounds | crates/common/src/artifact.rs:108-132 | in particular not with entries that hold the fields and no address wrap |
| ElfInspect.SmallEntriesAreReadOutOfBounds | crates/common/src/artifact.rs:109-128 | for each entry size below 40 in a 64-bit file and 20 in a 32-bit one there is an image that is read out of bounds, and none at those sizes |
| ElfInspect.PrefixVerdict | crates/common/src/artifact.rs:181-192 | any prefix of at least 64 bytes gets the full verdict or static |
| ElfInspect.NoFalseAlarm | crates/common/src/artifact.rs:181-192 | reading only the beginning never refuses a binary that the whole file would not refuse |
| ElfInspect.PrefixVerdictIsFullIffItFits | crates/common/src/artifact.rs:108-132 | for a file that names an interpreter a prefix gets its verdict if and only if table entry and segment fit |
| ElfInspect.InterpreterIsReadBack | crates/common/src/artifact.rs:132-144 | a NUL-padded path in the segment is classified by that path |
| ElfInspect.ImageIsClassifiedByItsPath | crates/common/src/artifact.rs:130-160 | an image whose first PT_INTERP segment holds a path and NULs is for musl if "ld-musl" occurs in the path, for glibc if only "ld-linux" does, and unknown otherwise; a Metal deploy is refused exactly for glibc |

## Left out

- Foreign calls: Axum extraction and authorisation, Stripe, Vault, S3, OIDC, ACME, NATS and Postgres itself; only the
  row changes and whether a call succeeded are modelled.
- Kernel effects: Firecracker, jailer, cgroups, tc, netlink and eBPF loading. Several paths release an index before the
  kernel's TAP device is deleted; ownership of the index is all that is claimed.
- Wasm execution, Pingora and the rate limiter are libraries and not part of this model.
- Snapshot wake for Metal: provisioning never sets a snapshot key.
- The quota check and the per-slug semaphores: they check and act in separate steps, and no bound is claimed.
- Integer widths other than the cost of Liquid usage: balances, sums, counters of the proxy and durations are unbounded.
- SQL types. The shipped price column is INTEGER (migrations/V40__per_service_billing.sql:33) and SUM of a BIGINT is
  NUMERIC, and the code reads both as 64-bit integers, which the Postgres client refuses: as shipped the Metal cycle,
  the aggregation and the invoice sums fail at the first row. The model takes the values as read.
- The calendar arithmetic of the monthly reset of the free allowance; which workspaces are due is a parameter.
- Which of the unlocked usage events an aggregation and which of the due services a Metal pass got hold of are
  parameters. A Metal pass locks the rows it reads until it commits and is one step.
- What follows the read of the pointer in an attempt at an invoice (sums of a window that has passed, Stripe, the local
  row, the pointer) is one step: of these only the pointer is shared, and another generator that reads it in between
  reads what it would have read before. Drafts and items that Stripe keeps from a failed attempt are not modelled.
- Rows that the daemon marks as crashed while it reattaches its filters between the queries of a start are not modelled.
- The deprovision events that the deletion of a workspace sends past the outbox are not modelled.
- MetalMetering.Meter.CountMetalInvocation: lookup and insert are one step, whereas the code releases the read lock in
  between, so that two first requests at once can lose counts.
- The proxy's flush is one step: a request counted while it publishes is counted after it.
- Counts of requests that are still running when a Liquid handle is removed or replaced go to a counter nobody reads;
  the model counts only registered services.
- Repeated deliveries of failed-payment and refund webhooks are applied again by the code; only the ledger's consistency
  is claimed for them.
- Events whose serialisation fails are dropped by the meters; the model's events always serialise.
- The reader of server-sent events decodes each chunk on its own; chunks are assumed to end on character boundaries. The
  JSON reader is a parameter.
- The shell lexer covers assignments, quoting, blanks, comments and line ends; text that starts an expansion, a
  redirection, a list or a pattern is reported as outside the fragment, never as an assignment.
- CLI printing, tables, prompts, templates, configuration parsing, serde shapes, and scope and role ranks: interface
  code and one-branch facts.
