/** The daemon's own data behind `TapOwnership`: a sorted set of indices, guards and handles that carry device
    *names*, and the code that allocates by scanning and releases by parsing a name
    (crates/daemon/src/provision.rs:104-196, crates/daemon/src/deprovision.rs, crates/daemon/src/run.rs). */
module TapDaemon {
  import opened Prelude
  import opened GuestAddressing
  import opened TapOwnership

  // ---- A BTreeSet as its ascending sequence of elements ----

  predicate Ascending(s: seq<nat>) { forall i, j :: 0 <= i < j < |s| ==> s[i] < s[j] }

  function Elements(s: seq<nat>): set<nat> { set x | x in s }

  lemma ConsAscending(x: nat, s: seq<nat>)
    requires Ascending(s) && (s == [] || x < s[0])
    ensures Ascending([x] + s)
  {
  }

  function Insert(s: seq<nat>, x: nat): seq<nat> {
    if s == [] || x < s[0] then [x] + s
    else if x == s[0] then s
    else [s[0]] + Insert(s[1..], x)
  }

  function Remove(s: seq<nat>, x: nat): seq<nat> {
    if s == [] then [] else if s[0] == x then s[1..] else [s[0]] + Remove(s[1..], x)
  }

  lemma {:induction false} InsertKeepsOrder(s: seq<nat>, x: nat)
    requires Ascending(s)
    ensures Ascending(Insert(s, x)) && Insert(s, x) != []
    ensures Insert(s, x)[0] == if s == [] || x < s[0] then x else s[0]
    ensures forall y :: y in Insert(s, x) <==> y in s || y == x
  {
    if s == [] || x < s[0] {
      ConsAscending(x, s);
    } else if x != s[0] {
      assert s == [s[0]] + s[1..];
      InsertKeepsOrder(s[1..], x);
      ConsAscending(s[0], Insert(s[1..], x));
    }
  }

  lemma {:induction false} RemoveKeepsOrder(s: seq<nat>, x: nat)
    requires Ascending(s)
    ensures Ascending(Remove(s, x)) && (Remove(s, x) != [] ==> s != [] && s[0] <= Remove(s, x)[0])
    ensures forall y :: y in Remove(s, x) <==> y in s && y != x
  {
    if s != [] {
      assert s == [s[0]] + s[1..];
      if s[0] != x {
        RemoveKeepsOrder(s[1..], x);
        ConsAscending(s[0], Remove(s[1..], x));
      }
    }
  }

  lemma InsertAdds(s: seq<nat>, x: nat)
    requires Ascending(s)
    ensures Ascending(Insert(s, x)) && Elements(Insert(s, x)) == Elements(s) + {x}
  {
    InsertKeepsOrder(s, x);
  }

  lemma RemoveDrops(s: seq<nat>, x: nat)
    requires Ascending(s)
    ensures Ascending(Remove(s, x)) && Elements(Remove(s, x)) == Elements(s) - {x}
  {
    RemoveKeepsOrder(s, x);
  }

  lemma ScanStopsAtLeastFree(s: seq<nat>, k: nat)
    requires Ascending(s) && k <= |s|
    requires forall m :: 0 <= m < k ==> s[m] == m
    requires k < |s| ==> k < s[k]
    ensures LeastFree(Elements(s)) == k
  {
    forall m: nat | m < k ensures m in Elements(s) { assert s[m] == m; }
    assert k !in Elements(s);
    var r := LeastFree(Elements(s));
    assert r !in Elements(s) && forall j: nat :: 0 <= j < r ==> j in Elements(s);
    assert !(r < k) && !(k < r);
  }

  datatype VmHandle = VmHandle(tapName: string, fcPid: nat)

  /** A connection or query that fails leaves the set empty. */
  method InitTapIndices(rows: seq<Row>, answered: bool) returns (pool: seq<nat>)
    ensures Ascending(pool)
    ensures Elements(pool) == set r | answered && r in rows && r.status in {Running, Provisioning} :: r.index
  {
    pool := [];
    if !answered { return; }
    for i := 0 to |rows|
      invariant Ascending(pool) && Elements(pool) == set r | r in rows[..i] && InitsPool(r) :: r.index
    {
      assert rows[..i + 1] == rows[..i] + [rows[i]];
      if InitsPool(rows[i]) {
        InsertAdds(pool, rows[i].index);
        pool := Insert(pool, rows[i].index);
      }
    }
    assert rows[..|rows|] == rows;
  }

  method ReleaseStale(pool: seq<nat>, rows: seq<Row>, answered: bool) returns (left: seq<nat>)
    requires Ascending(pool)
    ensures Ascending(left)
    ensures Elements(left)
         == Elements(pool) - set r | answered && r in rows && r.status in {Provisioning, Failed} :: r.index
  {
    left := pool;
    if !answered { return; }
    for i := 0 to |rows|
      invariant Ascending(left)
      invariant Elements(left) == Elements(pool) - set r | r in rows[..i] && IsStale(r) :: r.index
    {
      assert rows[..i + 1] == rows[..i] + [rows[i]];
      if IsStale(rows[i]) {
        RemoveDrops(left, rows[i].index);
        left := Remove(left, rows[i].index);
      }
    }
    assert rows[..|rows|] == rows;
  }

  /** The service's handle names the device of its last rebuilt row. */
  predicate NamesRow(rows: seq<Row>, registry: map<string, VmHandle>, s: string)
    requires s in registry
  {
    (exists r :: r in rows && IsRebuilt(r) && r.id == s)
    && ParseTapName(registry[s].tapName) == Some(RowOf(rows, s).index)
  }

  method RebuildRegistry(rows: seq<Row>, answered: bool) returns (registry: map<string, VmHandle>)
    requires forall r :: r in rows ==> r.index <= MAX_TAP_INDEX
    ensures registry.Keys == set r | answered && r in rows && r.status == Running && r.fcPid.Some? :: r.id
    ensures forall s :: s in registry ==> NamesRow(rows, registry, s)
  {
    registry := map[];
    if !answered { return; }
    for i := 0 to |rows|
      invariant RegistryHolds(rows[..i], registry)
    {
      var row := rows[i];
      NextRow(rows, i, registry);
      if IsRebuilt(row) {
        registry := registry[row.id := VmHandle(TapName(row.index), row.fcPid.value)];
      }
    }
    AllRows(rows, registry);
  }

  /** The registry has the rows' rebuilt services, each with the name of its last row. */
  ghost predicate RegistryHolds(rows: seq<Row>, registry: map<string, VmHandle>) {
    && registry.Keys == (set r | r in rows && IsRebuilt(r) :: r.id)
    && forall s :: s in registry ==> NamesRow(rows, registry, s)
  }

  lemma LastRowOf(rows: seq<Row>, row: Row, s: string)
    requires exists r :: r in rows + [row] && IsRebuilt(r) && r.id == s
    ensures IsRebuilt(row) && row.id == s ==> RowOf(rows + [row], s) == row
    ensures !(IsRebuilt(row) && row.id == s)
            ==> (exists r :: r in rows && IsRebuilt(r) && r.id == s) && RowOf(rows + [row], s) == RowOf(rows, s)
  {
    assert (rows + [row])[..|rows + [row]| - 1] == rows;
    var r :| r in rows + [row] && IsRebuilt(r) && r.id == s;
    if !(IsRebuilt(row) && row.id == s) { assert r in rows; }
  }

  lemma RegistryGrows(rows: seq<Row>, row: Row, registry: map<string, VmHandle>, handle: VmHandle)
    requires RegistryHolds(rows, registry) && IsRebuilt(row) && ParseTapName(handle.tapName) == Some(row.index)
    ensures RegistryHolds(rows + [row], registry[row.id := handle])
  {
    var more := registry[row.id := handle];
    assert row in rows + [row];
    forall s | s in more ensures NamesRow(rows + [row], more, s) {
      if s != row.id {
        assert NamesRow(rows, registry, s);
        var r :| r in rows && IsRebuilt(r) && r.id == s;
        assert r in rows + [row];
      }
      LastRowOf(rows, row, s);
    }
  }

  lemma RegistryStays(rows: seq<Row>, row: Row, registry: map<string, VmHandle>)
    requires RegistryHolds(rows, registry) && !IsRebuilt(row)
    ensures RegistryHolds(rows + [row], registry)
  {
    forall s | s in registry ensures NamesRow(rows + [row], registry, s) {
      assert NamesRow(rows, registry, s);
      var r :| r in rows && IsRebuilt(r) && r.id == s;
      assert r in rows + [row];
      LastRowOf(rows, row, s);
    }
  }

  lemma NextRow(rows: seq<Row>, i: nat, registry: map<string, VmHandle>)
    requires i < |rows| && rows[i].index <= MAX_TAP_INDEX && RegistryHolds(rows[..i], registry)
    ensures var row := rows[i];
            RegistryHolds(rows[..i + 1], if IsRebuilt(row)
                                         then registry[row.id := VmHandle(TapName(row.index), row.fcPid.value)]
                                         else registry)
  {
    var row := rows[i];
    assert rows[..i + 1] == rows[..i] + [row];
    if IsRebuilt(row) {
      TapNameParses(row.index);
      RegistryGrows(rows[..i], row, registry, VmHandle(TapName(row.index), row.fcPid.value));
    } else {
      RegistryStays(rows[..i], row, registry);
    }
  }

  lemma AllRows(rows: seq<Row>, registry: map<string, VmHandle>)
    requires RegistryHolds(rows[..|rows|], registry)
    ensures registry.Keys == set r | r in rows && IsRebuilt(r) :: r.id
    ensures forall s :: s in registry ==> NamesRow(rows, registry, s)
  {
    assert rows[..|rows|] == rows;
  }

  /** The scan of `allocate_tap_index`: the first gap in an ascending sequence. */
  method FirstGap(indices: seq<nat>) returns (idx: nat)
    requires Ascending(indices)
    ensures idx == LeastFree(Elements(indices)) && idx <= |indices|
  {
    idx := 0;
    for k := 0 to |indices|
      invariant idx == k && forall m :: 0 <= m < k ==> indices[m] == m
    {
      var used := indices[k];
      if idx < used {
        ScanStopsAtLeastFree(indices, k);
        return;
      }
      assert k > 0 ==> indices[k - 1] < indices[k];
      idx := used + 1;
    }
    ScanStopsAtLeastFree(indices, |indices|);
  }

  function Takes(services: seq<string>): seq<Event> {
    seq(|services|, i requires 0 <= i < |services| => Take(services[i]))
  }

  function Names(services: seq<string>): set<string> { set s | s in services }

  lemma OneMoreTake(s: State, services: seq<string>, k: nat)
    requires k < |services| && Distinct(services)
    ensures Run(s, Takes(services[..k + 1])) == Step(Run(s, Takes(services[..k])), Take(services[k]))
    ensures services[k] !in Names(services[..k])
    ensures Names(services[..k + 1]) == Names(services[..k]) + {services[k]}
  {
    assert services[..k + 1] == services[..k] + [services[k]];
    assert Takes(services[..k + 1]) == Takes(services[..k]) + [Take(services[k])];
    RunAppend(s, Takes(services[..k]), Take(services[k]));
  }

  /** Each armed guard names the index that it holds. */
  ghost predicate GuardsHold(guards: map<nat, Option<string>>, held: map<Holder, nat>) {
    forall t :: (Guard(t) in held <==> t in guards && guards[t].Some?)
             && (Guard(t) in held ==> ParseTapName(guards[t].value) == Some(held[Guard(t)]))
  }

  ghost predicate HandlesHold(registry: map<string, VmHandle>, held: map<Holder, nat>) {
    forall s :: (Handle(s) in held <==> s in registry)
             && (Handle(s) in held ==> ParseTapName(registry[s].tapName) == Some(held[Handle(s)]))
  }

  ghost predicate ReleasesHold(releases: map<nat, string>, held: map<Holder, nat>) {
    forall r :: (Pending(r) in held <==> r in releases)
             && (Pending(r) in held ==> ParseTapName(releases[r]) == Some(held[Pending(r)]))
  }

  ghost predicate AllHold(guards: map<nat, Option<string>>, registry: map<string, VmHandle>,
                          releases: map<nat, string>, held: map<Holder, nat>) {
    GuardsHold(guards, held) && HandlesHold(registry, held) && ReleasesHold(releases, held)
  }

  lemma AllocateHolds(guards: map<nat, Option<string>>, registry: map<string, VmHandle>, releases: map<nat, string>,
                      s: State, task: nat, idx: nat)
    requires AllHold(guards, registry, releases, s.held)
    requires task !in guards && idx <= MAX_TAP_INDEX && idx == LeastFree(s.inUse)
    ensures var r := Step(s, Allocate(task));
            && r == s.(inUse := s.inUse + {idx}, held := s.held[Guard(task) := idx])
            && AllHold(guards[task := Some(TapName(idx))], registry, releases, r.held)
  {
    assert Guard(task) !in s.held;
    TapNameParses(idx);
  }

  lemma LeastFreeMeans(used: set<nat>)
    ensures var idx := LeastFree(used);
            && (idx > MAX_TAP_INDEX <==> forall i: nat :: i <= MAX_TAP_INDEX ==> i in used)
            && idx !in used && (forall i: nat :: i < idx ==> i in used) && idx <= |used|
  {
  }

  function Taken(held: map<Holder, nat>, service: string, release: nat): map<Holder, nat>
    requires Handle(service) in held
  {
    (held - {Handle(service)})[Pending(release) := held[Handle(service)]]
  }

  lemma TakenGuards(guards: map<nat, Option<string>>, held: map<Holder, nat>, service: string, release: nat)
    requires GuardsHold(guards, held) && Handle(service) in held
    ensures GuardsHold(guards, Taken(held, service, release))
  {
    forall t: nat ensures Guard(t) in Taken(held, service, release) <==> Guard(t) in held {}
  }

  lemma TakenHandles(registry: map<string, VmHandle>, held: map<Holder, nat>, service: string, release: nat)
    requires HandlesHold(registry, held) && Handle(service) in held
    ensures HandlesHold(registry - {service}, Taken(held, service, release))
  {
    forall s: string ensures Handle(s) in Taken(held, service, release) <==> Handle(s) in held && s != service {}
  }

  lemma TakenReleases(releases: map<nat, string>, held: map<Holder, nat>, service: string, release: nat, name: string)
    requires ReleasesHold(releases, held)
    requires Handle(service) in held && ParseTapName(name) == Some(held[Handle(service)])
    ensures ReleasesHold(releases[release := name], Taken(held, service, release))
  {
    forall r: nat ensures Pending(r) in Taken(held, service, release) <==> Pending(r) in held || r == release {}
  }

  lemma TakeHolds(guards: map<nat, Option<string>>, registry: map<string, VmHandle>, releases: map<nat, string>,
                  s: State, service: string)
    requires AllHold(guards, registry, releases, s.held)
    requires service in registry && s.nextRelease !in releases
    ensures var r := Step(s, Take(service));
            && AllHold(guards, registry - {service}, releases[s.nextRelease := registry[service].tapName], r.held)
            && r.inUse == s.inUse && r.nextRelease == s.nextRelease + 1
  {
    assert Handle(service) in s.held;
    assert Step(s, Take(service)).held == Taken(s.held, service, s.nextRelease);
    TakenGuards(guards, s.held, service, s.nextRelease);
    TakenHandles(registry, s.held, service, s.nextRelease);
    TakenReleases(releases, s.held, service, s.nextRelease, registry[service].tapName);
  }

  class Daemon {
    var tapIndices: seq<nat>                 // TAP_INDICES
    var guards: map<nat, Option<string>>     // live TapGuards by provisioning task; None once defused
    var registry: map<string, VmHandle>      // VmRegistry
    var releases: map<nat, string>           // names that running tasks are about to release
    var nextRelease: nat
    ghost var model: State

    /** The data agree with the model: each armed guard, handle and pending release names the index it holds. */
    ghost predicate Valid()
      reads this
    {
      && Ascending(tapIndices) && Elements(tapIndices) == model.inUse
      && nextRelease == model.nextRelease
      && (forall r :: r in releases ==> r < nextRelease)
      && AllHold(guards, registry, releases, model.held)
    }

    /** Daemon start: `init_tap_indices`, `cleanup_stale_provisioning`, `rebuild_registry`, in this order. */
    constructor (rows: seq<Row>, db: Answers)
      requires forall r :: r in rows ==> r.index <= MAX_TAP_INDEX
      ensures Valid() && model == Startup(rows, db)
    {
      var pool := InitTapIndices(rows, db.init);
      var left := ReleaseStale(pool, rows, db.stale);
      var vms := RebuildRegistry(rows, db.rebuild);
      tapIndices, registry := left, vms;
      guards, releases, nextRelease := map[], map[], 0;
      model := Startup(rows, db);
    }

    /** `allocate_tap_index`: the least index that is not in use, never more than the number in use; fails exactly
        when 0 to 3968 are all taken. */
    method AllocateTapIndex() returns (index: Option<nat>)
      requires Ascending(tapIndices)
      modifies this`tapIndices
      ensures Ascending(tapIndices)
      ensures index.None? <==> forall i: nat :: i <= MAX_TAP_INDEX ==> i in old(Elements(tapIndices))
      ensures index.Some? ==>
                && index.value !in old(Elements(tapIndices))
                && (forall i: nat :: i < index.value ==> i in old(Elements(tapIndices)))
                && index.value <= |old(Elements(tapIndices))|
      ensures match index
              case None => tapIndices == old(tapIndices) && LeastFree(old(Elements(tapIndices))) > MAX_TAP_INDEX
              case Some(i) => i <= MAX_TAP_INDEX && i == LeastFree(old(Elements(tapIndices)))
                              && Elements(tapIndices) == old(Elements(tapIndices)) + {i}
    {
      var idx := FirstGap(tapIndices);
      LeastFreeMeans(Elements(tapIndices));
      if idx > MAX_TAP_INDEX {
        return None;
      }
      InsertAdds(tapIndices, idx);
      tapIndices := Insert(tapIndices, idx);
      return Some(idx);
    }

    /** A provisioning task allocates and puts a guard around the result at once. */
    method AllocateGuarded(task: nat) returns (index: Option<nat>)
      requires Valid() && task !in guards
      modifies this
      ensures Valid() && model == Step(old(model), Allocate(task))
      ensures index.Some? ==> model.held == old(model.held)[Guard(task) := index.value]
      ensures index.None? ==> model == old(model)
    {
      index := AllocateTapIndex();
      if index.Some? { PutGuard(task, index.value); }
    }

    /** The guard around an index that has just been allocated. */
    method PutGuard(task: nat, index: nat)
      requires Ascending(tapIndices) && Elements(tapIndices) == model.inUse + {index}
      requires index == LeastFree(model.inUse) && index <= MAX_TAP_INDEX && task !in guards
      requires nextRelease == model.nextRelease && forall r :: r in releases ==> r < nextRelease
      requires AllHold(guards, registry, releases, model.held)
      modifies this`guards, this`model
      ensures Valid() && model == Step(old(model), Allocate(task))
      ensures model.held == old(model.held)[Guard(task) := index]
    {
      AllocateHolds(guards, registry, releases, model, task, index);
      guards := guards[task := Some(TapName(index))];
      model := Step(model, Allocate(task));
    }

    /** `release_tap_index`: parses the device name; other names change nothing. */
    method ReleaseTapIndex(name: string)
      requires Ascending(tapIndices)
      modifies this`tapIndices
      ensures Ascending(tapIndices)
      ensures Elements(tapIndices)
           == old(Elements(tapIndices)) - match ParseTapName(name) case Some(i) => {i} case None => {}
    {
      var index := ParseTapName(name);
      if index.Some? {
        RemoveDrops(tapIndices, index.value);
        tapIndices := Remove(tapIndices, index.value);
      }
    }

    /** Dropping a guard: an armed one hands its name to a fresh release task; a defused one does nothing. */
    method DropGuard(task: nat)
      requires Valid() && task in guards
      modifies this
      ensures Valid() && task !in guards
      ensures model == if old(guards[task]).Some? then Step(old(model), Event.DropGuard(task)) else old(model)
    {
      var name := guards[task];
      guards := guards - {task};
      if name.Some? {
        releases := releases[nextRelease := name.value];
        nextRelease := nextRelease + 1;
        model := Step(model, Event.DropGuard(task));
      }
    }

    /** The end of a successful `provision_metal`: the handle enters the registry and the guard is defused. */
    method RegisterAndDefuse(task: nat, service: string, fcPid: nat)
      requires Valid() && task in guards && guards[task].Some?
      modifies this
      ensures Valid() && model == Step(old(model), Register(task, service))
      ensures task in guards && guards[task] == None
    {
      registry := registry[service := VmHandle(guards[task].value, fcPid)];
      guards := guards[task := None];
      model := Step(model, Register(task, service));
    }

    /** Taking a handle out of the registry in order to release it: `rollback_provision` and the deprovision arm.
        A second call for the same service finds nothing. */
    method TakeHandle(service: string) returns (handle: Option<VmHandle>)
      requires Valid()
      modifies this
      ensures Valid() && registry == old(registry) - {service}
      ensures handle.Some? <==> service in old(registry)
      ensures model == if handle.Some? then Step(old(model), Take(service)) else old(model)
    {
      if service in registry {
        handle := Some(registry[service]);
        TakeHolds(guards, registry, releases, model, service);
        registry := registry - {service};
        releases := releases[nextRelease := handle.value.tapName];
        nextRelease := nextRelease + 1;
        model := Step(model, Take(service));
      } else {
        handle := None;
      }
    }

    /** The task that took a name reaches `release_tap_index`. */
    method FinishRelease(release: nat)
      requires Valid() && release in releases
      modifies this
      ensures Valid() && model == Step(old(model), Release(release))
    {
      ReleaseTapIndex(releases[release]);
      releases := releases - {release};
      model := Step(model, Release(release));
    }

    /** The crash watcher under the registry lock, and the shutdown drain: every listed handle leaves the registry
        in one atomic step; their names are released later, one by one. */
    method ReapHandles(dead: seq<string>)
      requires Valid()
      requires Distinct(dead) && Names(dead) <= registry.Keys
      modifies this
      ensures Valid() && model == Run(old(model), Takes(dead))
      ensures registry == old(registry) - Names(dead)
    {
      for k := 0 to |dead|
        invariant Valid()
        invariant model == Run(old(model), Takes(dead[..k]))
        invariant registry == old(registry) - Names(dead[..k])
      {
        OneMoreTake(old(model), dead, k);
        assert dead[k] in registry;
        ghost var before := model;
        var handle := TakeHandle(dead[k]);
        assert model == Step(before, Take(dead[k]));
      }
      assert dead[..|dead|] == dead;
    }

    /** The suspend handler and the eBPF audit remove the handle and never release its index. */
    method DiscardHandle(service: string)
      requires Valid()
      modifies this
      ensures Valid() && model == Step(old(model), Discard(service))
    {
      registry := registry - {service};
      model := Step(model, Discard(service));
    }
  }
}
