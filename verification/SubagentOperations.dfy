/** The registries of running spawns, waits and joins, with the spans, the active-span gauge
    and the counters that must stay consistent with them. */
module SubagentOperations {
  import opened BoundedMaps
  import opened Optional
  import AgentTree

  type Id = string
  type Status = AgentTree.Status

  datatype Kind = Wait | Join

  /** What a span was started for: the registry and the identifier it is filed under. */
  datatype Slot = SpawnSlot(id: Id) | WaitJoinSlot(kind: Kind, id: Id)

  datatype Span = Span(serial: nat, slot: Slot)

  /** `active` are the spans the gauge counts; `ended` are the spans ended, in order;
      `evicted` are those ended because a registry was full. */
  datatype SpanLog = SpanLog(next: nat, active: set<Span>, gauge: int, ended: seq<Span>, evicted: set<Span>)

  datatype JoinStatus = JoinCompleted | JoinFailed | JoinCancelled | JoinTimeout | JoinUnknown | JoinWaiting

  datatype Spawn = Spawn(span: Span, child: Id, launcherCompleted: bool)

  /** What a caller may say of a wait or a join; each part may be left out. */
  datatype Options = Options(
    spawnId: Option<Id>, child: Option<Id>, childStatus: Option<Status>, joinStatus: Option<JoinStatus>,
    failurePropagated: Option<bool>)

  datatype WaitJoin = WaitJoin(span: Span, id: Id, kind: Kind, options: Options)

  /** `durations` are the spawns a duration was recorded for, in order. */
  datatype Operations = Operations(
    spawns: BoundedMap<Id, Spawn>, waits: BoundedMap<Id, WaitJoin>, joins: BoundedMap<Id, WaitJoin>,
    log: SpanLog, durations: seq<Span>, started: nat, ended: nat, evicted: nat)

  function Fresh(maxSpawns: nat, maxWaits: nat, maxJoins: nat): Operations {
    Operations(Create(maxSpawns), Create(maxWaits), Create(maxJoins), SpanLog(0, {}, 0, [], {}), [], 0, 0, 0)
  }

  function Registry(o: Operations, kind: Kind): BoundedMap<Id, WaitJoin> {
    if kind.Wait? then o.waits else o.joins
  }

  function WithRegistry(o: Operations, kind: Kind, registry: BoundedMap<Id, WaitJoin>): Operations {
    if kind.Wait? then o.(waits := registry) else o.(joins := registry)
  }

  // ----- spans -----

  function Opened(log: SpanLog, slot: Slot): SpanLog {
    log.(next := log.next + 1, active := log.active + {Span(log.next, slot)}, gauge := log.gauge + 1)
  }

  /** `recordActiveSpanEnd`, which knows the span only once, and `span.end()`. */
  function Closed(log: SpanLog, span: Span): SpanLog {
    var ended := log.(ended := log.ended + [span]);
    if span in log.active then ended.(active := log.active - {span}, gauge := log.gauge - 1) else ended
  }

  function Evict(log: SpanLog, span: Span): SpanLog {
    Closed(log, span).(evicted := log.evicted + {span})
  }

  // ----- entering and leaving the registries -----

  function EnterSpawn(o: Operations, id: Id, child: Id): Operations {
    var begun := Opened(o.log, SpawnSlot(id));
    var filed := o.(spawns := Put(o.spawns, id, Spawn(Span(o.log.next, SpawnSlot(id)), child, false)),
        started := o.started + 1);
    match EvictedBy(o.spawns, id)
    case None => filed.(log := begun)
    case Some(oldest) =>
      if oldest in o.spawns.entries
      then filed.(log := Evict(begun, o.spawns.entries[oldest].span), evicted := o.evicted + 1)
      else filed.(log := begun)
  }

  function EnterWaitJoin(o: Operations, kind: Kind, id: Id, options: Options): Operations {
    var begun := Opened(o.log, WaitJoinSlot(kind, id));
    var registry := Registry(o, kind);
    var filed := WithRegistry(o, kind,
        Put(registry, id, WaitJoin(Span(o.log.next, WaitJoinSlot(kind, id)), id, kind, options)));
    match EvictedBy(registry, id)
    case None => filed.(log := begun)
    case Some(oldest) =>
      if oldest in registry.entries then filed.(log := Evict(begun, registry.entries[oldest].span))
      else filed.(log := begun)
  }

  /** `recordSubagentSpawnDuration`. */
  function RecordDuration(o: Operations, id: Id): Operations
    requires id in o.spawns.entries
  {
    var spawn := o.spawns.entries[id];
    if spawn.launcherCompleted then o
    else o.(durations := o.durations + [spawn.span], spawns := Put(o.spawns, id, spawn.(launcherCompleted := true)))
  }

  function LeaveSpawn(o: Operations, id: Id): Operations
    requires id in o.spawns.entries
  {
    var timed := RecordDuration(o, id);
    timed.(log := Closed(o.log, o.spawns.entries[id].span), spawns := Delete(timed.spawns, id), ended := o.ended + 1)
  }

  function LeaveWaitJoin(o: Operations, kind: Kind, id: Id): Operations
    requires id in Registry(o, kind).entries
  {
    var registry := Registry(o, kind);
    WithRegistry(o, kind, Delete(registry, id)).(log := Closed(o.log, registry.entries[id].span))
  }

  // ----- what must stay consistent -----

  function InSlot(o: Operations, slot: Slot): Option<Span> {
    match slot
    case SpawnSlot(id) => if id in o.spawns.entries then Some(o.spawns.entries[id].span) else None
    case WaitJoinSlot(kind, id) =>
      if id in Registry(o, kind).entries then Some(Registry(o, kind).entries[id].span) else None
  }

  /** The active spans are exactly the registered ones, each in the slot it was started for,
      and every span ever started is either active or has been ended exactly once. */
  ghost predicate Tracked(o: Operations) {
    && (forall slot: Slot :: InSlot(o, slot).Some? ==>
         InSlot(o, slot).value.slot == slot && InSlot(o, slot).value in o.log.active)
    && (forall span | span in o.log.active :: span.serial < o.log.next && InSlot(o, span.slot) == Some(span))
    && (forall span | span in o.log.ended :: span.serial < o.log.next && span !in o.log.active)
    && Distinct(o.log.ended) && (forall span | span in o.log.evicted :: span in o.log.ended)
    && |o.log.active| + |o.log.ended| == o.log.next && o.log.gauge == |o.log.active|
  }

  ghost predicate Counted(o: Operations) {
    && o.started == |o.spawns.order| + o.ended + o.evicted
    && o.log.gauge == |o.spawns.order| + |o.waits.order| + |o.joins.order|
  }

  ghost predicate DistinctChildren(o: Operations) {
    forall i, j | i in o.spawns.entries && j in o.spawns.entries && i != j ::
        o.spawns.entries[i].child != o.spawns.entries[j].child
  }

  /** A spawn has at most one duration: none before its launch completed, exactly one
      afterwards and when it has ended otherwise than by eviction. */
  ghost predicate Timed(o: Operations) {
    && Distinct(o.durations) && (forall span | span in o.durations :: span.slot.SpawnSlot? && span.serial < o.log.next)
    && (forall id | id in o.spawns.entries :: o.spawns.entries[id].launcherCompleted <==>
         o.spawns.entries[id].span in o.durations)
    && (forall span | span in o.log.ended && span.slot.SpawnSlot? && span !in o.log.evicted :: span in o.durations)
  }

  ghost predicate Registered(o: Operations) {
    && Valid(o.spawns) && Valid(o.waits) && Valid(o.joins)
    && (forall id | id in o.waits.entries :: o.waits.entries[id].id == id && o.waits.entries[id].kind == Wait)
    && (forall id | id in o.joins.entries :: o.joins.entries[id].id == id && o.joins.entries[id].kind == Join)
  }

  ghost predicate Consistent(o: Operations) {
    Registered(o) && Tracked(o) && Counted(o) && DistinctChildren(o) && Timed(o)
  }

  lemma FreshIsConsistent(maxSpawns: nat, maxWaits: nat, maxJoins: nat)
    requires 1 <= maxSpawns && 1 <= maxWaits && 1 <= maxJoins
    ensures Consistent(Fresh(maxSpawns, maxWaits, maxJoins))
  {
  }

  // ----- filling and emptying one slot -----

  lemma EvictKeepsTracked(o: Operations, after: Operations, slot: Slot)
    requires Tracked(o) && InSlot(o, slot).Some? && after.log == Evict(o.log, InSlot(o, slot).value)
    requires InSlot(after, slot) == None
    requires forall other: Slot :: other != slot ==> InSlot(after, other) == InSlot(o, other)
    ensures Tracked(after) && InSlot(o, slot).value in o.log.active
    ensures InSlot(o, slot).value.serial < o.log.next == after.log.next
  {
    var span := InSlot(o, slot).value;
    DistinctAppend(o.log.ended, span);
    assert |o.log.active - {span}| == |o.log.active| - 1;
  }

  lemma CloseKeepsTracked(o: Operations, after: Operations, slot: Slot)
    requires Tracked(o) && InSlot(o, slot).Some? && after.log == Closed(o.log, InSlot(o, slot).value)
    requires InSlot(after, slot) == None
    requires forall other: Slot :: other != slot ==> InSlot(after, other) == InSlot(o, other)
    ensures Tracked(after) && InSlot(o, slot).value in o.log.active
    ensures InSlot(o, slot).value.serial < o.log.next == after.log.next
  {
    var span := InSlot(o, slot).value;
    DistinctAppend(o.log.ended, span);
    assert |o.log.active - {span}| == |o.log.active| - 1;
  }

  lemma OpenKeepsTracked(o: Operations, after: Operations, slot: Slot)
    requires Tracked(o) && InSlot(o, slot) == None && after.log == Opened(o.log, slot)
    requires InSlot(after, slot) == Some(Span(o.log.next, slot))
    requires forall other: Slot :: other != slot ==> InSlot(after, other) == InSlot(o, other)
    ensures Tracked(after)
  {
    var span := Span(o.log.next, slot);
    assert span !in o.log.active;
  }

  /** Ending one span and starting another do not interfere. */
  lemma EvictThenOpen(log: SpanLog, span: Span, slot: Slot)
    requires span != Span(log.next, slot)
    ensures Evict(Opened(log, slot), span) == Opened(Evict(log, span), slot)
  {
    var started := Span(log.next, slot);
    assert log.active + {started} - {span} == log.active - {span} + {started};
  }

  /** The operations after the registry made room for a spawn. */
  function WithoutOldestSpawn(o: Operations, oldest: Id): Operations
    requires oldest in o.spawns.entries
  {
    o.(spawns := Delete(o.spawns, oldest), log := Evict(o.log, o.spawns.entries[oldest].span), evicted := o.evicted + 1)
  }

  lemma EnterSpawnTracked(o: Operations, id: Id, child: Id)
    requires Registered(o) && Tracked(o) && id !in o.spawns.entries
    ensures Tracked(EnterSpawn(o, id, child))
  {
    hide Put, Delete, EvictedBy, Valid, Tracked, Opened, Closed, Evict;
    var after, slot := EnterSpawn(o, id, child), SpawnSlot(id);
    PutKeeps(o.spawns, id, Spawn(Span(o.log.next, slot), child, false));
    match EvictedBy(o.spawns, id) {
      case None =>
        OpenKeepsTracked(o, after, slot);
      case Some(oldest) =>
        var mid := WithoutOldestSpawn(o, oldest);
        DeleteKeeps(o.spawns, oldest);
        EvictKeepsTracked(o, mid, SpawnSlot(oldest));
        EvictThenOpen(o.log, o.spawns.entries[oldest].span, slot);
        OpenKeepsTracked(mid, after, slot);
    }
  }

  lemma EnterSpawnKeeps(o: Operations, id: Id, child: Id)
    requires Consistent(o) && id !in o.spawns.entries
    requires forall i | i in o.spawns.entries :: o.spawns.entries[i].child != child
    ensures Consistent(EnterSpawn(o, id, child)) && id in EnterSpawn(o, id, child).spawns.entries
    ensures EnterSpawn(o, id, child).spawns.maxSize == o.spawns.maxSize
  {
    hide Valid, Tracked, Timed;
    EnterSpawnTracked(o, id, child);
    PutKeeps(o.spawns, id, Spawn(Span(o.log.next, SpawnSlot(id)), child, false));
    if EvictedBy(o.spawns, id).Some? {
      SlotOfSpawn(o, EvictedBy(o.spawns, id).value);
    }
    EnterSpawnTimed(o, id, child);
  }

  lemma SlotOfSpawn(o: Operations, id: Id)
    requires Tracked(o) && id in o.spawns.entries
    ensures o.spawns.entries[id].span.slot == SpawnSlot(id) && o.spawns.entries[id].span in o.log.active
  {
    assert InSlot(o, SpawnSlot(id)).Some?;
  }

  lemma EnterSpawnTimed(o: Operations, id: Id, child: Id)
    requires Consistent(o) && id !in o.spawns.entries
    ensures Timed(EnterSpawn(o, id, child))
  {
    hide Put, EvictedBy, Valid;
    PutKeeps(o.spawns, id, Spawn(Span(o.log.next, SpawnSlot(id)), child, false));
  }

  lemma EnterWaitJoinTracked(o: Operations, kind: Kind, id: Id, options: Options)
    requires Registered(o) && Tracked(o) && id !in Registry(o, kind).entries
    ensures Tracked(EnterWaitJoin(o, kind, id, options))
  {
    hide Put, Delete, EvictedBy, Valid, Tracked, Opened, Closed, Evict;
    var after, slot, registry := EnterWaitJoin(o, kind, id, options), WaitJoinSlot(kind, id), Registry(o, kind);
    PutKeeps(registry, id, WaitJoin(Span(o.log.next, slot), id, kind, options));
    match EvictedBy(registry, id) {
      case None =>
        OpenKeepsTracked(o, after, slot);
      case Some(oldest) =>
        var mid := WithRegistry(o, kind, Delete(registry, oldest)).(log := Evict(o.log, registry.entries[oldest].span));
        DeleteKeeps(registry, oldest);
        EvictKeepsTracked(o, mid, WaitJoinSlot(kind, oldest));
        EvictThenOpen(o.log, registry.entries[oldest].span, slot);
        OpenKeepsTracked(mid, after, slot);
    }
  }

  lemma EnterWaitJoinKeeps(o: Operations, kind: Kind, id: Id, options: Options)
    requires Consistent(o) && id !in Registry(o, kind).entries
    ensures Consistent(EnterWaitJoin(o, kind, id, options))
    ensures id in Registry(EnterWaitJoin(o, kind, id, options), kind).entries
    ensures EnterWaitJoin(o, kind, id, options).spawns == o.spawns
  {
    hide Valid, Tracked;
    EnterWaitJoinTracked(o, kind, id, options);
    var registry := Registry(o, kind);
    PutKeeps(registry, id, WaitJoin(Span(o.log.next, WaitJoinSlot(kind, id)), id, kind, options));
    if EvictedBy(registry, id).Some? {
      SlotOfWaitJoin(o, kind, EvictedBy(registry, id).value);
    }
  }

  lemma RecordDurationKeeps(o: Operations, id: Id)
    requires Consistent(o) && id in o.spawns.entries
    ensures Consistent(RecordDuration(o, id))
    ensures RecordDuration(o, id).spawns.entries.Keys == o.spawns.entries.Keys
    ensures RecordDuration(o, id).spawns.maxSize == o.spawns.maxSize
    ensures RecordDuration(o, id).spawns.order == o.spawns.order
    ensures RecordDuration(o, id).spawns.entries[id].span in RecordDuration(o, id).durations
  {
    var after := RecordDuration(o, id);
    var spawn := o.spawns.entries[id];
    assert InSlot(o, SpawnSlot(id)) == Some(spawn.span);
    if !spawn.launcherCompleted {
      PutKeeps(o.spawns, id, spawn.(launcherCompleted := true));
      DistinctAppend(o.durations, spawn.span);
      RecordDurationTracked(o, id);
      assert InSlot(o, SpawnSlot(id)) == Some(spawn.span);
      forall i | i in after.spawns.entries
        ensures after.spawns.entries[i].launcherCompleted <==> after.spawns.entries[i].span in after.durations
      {
        assert InSlot(o, SpawnSlot(i)) == Some(o.spawns.entries[i].span);
      }
    }
  }

  lemma RecordDurationTracked(o: Operations, id: Id)
    requires Tracked(o) && id in o.spawns.entries
    ensures Tracked(RecordDuration(o, id))
  {
    var after := RecordDuration(o, id);
    assert forall slot: Slot :: InSlot(after, slot) == InSlot(o, slot);
  }

  lemma LeaveSpawnTracked(timed: Operations, after: Operations, id: Id)
    requires Registered(timed) && Tracked(timed) && id in timed.spawns.entries
    requires after.spawns == Delete(timed.spawns, id) && after.waits == timed.waits && after.joins == timed.joins
    requires after.log == Closed(timed.log, timed.spawns.entries[id].span)
    ensures Tracked(after) && timed.spawns.entries[id].span in timed.log.active
  {
    hide Delete, Valid, Tracked, Closed;
    DeleteKeeps(timed.spawns, id);
    assert InSlot(timed, SpawnSlot(id)).Some?;
    CloseKeepsTracked(timed, after, SpawnSlot(id));
  }

  lemma LeaveSpawnKeeps(o: Operations, id: Id)
    requires Consistent(o) && id in o.spawns.entries
    ensures Consistent(LeaveSpawn(o, id)) && LeaveSpawn(o, id).spawns.entries.Keys == o.spawns.entries.Keys - {id}
    ensures LeaveSpawn(o, id).spawns.maxSize == o.spawns.maxSize
    ensures |LeaveSpawn(o, id).spawns.order| == |o.spawns.order| - 1
  {
    hide Delete, Valid, Tracked, Timed;
    RecordDurationKeeps(o, id);
    var timed, after := RecordDuration(o, id), LeaveSpawn(o, id);
    DeleteKeeps(timed.spawns, id);
    assert timed.log == o.log && timed.spawns.entries[id].span == o.spawns.entries[id].span;
    LeaveSpawnTracked(timed, after, id);
    LeaveSpawnTimed(timed, after, id);
  }

  lemma LeaveSpawnTimed(o: Operations, after: Operations, id: Id)
    requires Consistent(o) && id in o.spawns.entries && o.spawns.entries[id].span in o.durations
    requires after.spawns == Delete(o.spawns, id) && after.durations == o.durations
    requires after.log == Closed(o.log, o.spawns.entries[id].span)
    ensures Timed(after)
  {
    hide Delete, Valid;
    DeleteKeeps(o.spawns, id);
  }

  lemma LeaveWaitJoinTracked(o: Operations, kind: Kind, id: Id)
    requires Registered(o) && Tracked(o) && id in Registry(o, kind).entries
    ensures Tracked(LeaveWaitJoin(o, kind, id)) && Registry(o, kind).entries[id].span in o.log.active
  {
    hide Delete, Valid, Tracked, Closed;
    var registry, after := Registry(o, kind), LeaveWaitJoin(o, kind, id);
    DeleteKeeps(registry, id);
    assert InSlot(o, WaitJoinSlot(kind, id)).Some?;
    CloseKeepsTracked(o, after, WaitJoinSlot(kind, id));
  }

  lemma LeaveWaitJoinKeeps(o: Operations, kind: Kind, id: Id)
    requires Consistent(o) && id in Registry(o, kind).entries
    ensures Consistent(LeaveWaitJoin(o, kind, id)) && LeaveWaitJoin(o, kind, id).spawns == o.spawns
    ensures Registry(LeaveWaitJoin(o, kind, id), kind) == Delete(Registry(o, kind), id)
    ensures forall other: Kind :: other != kind ==> Registry(LeaveWaitJoin(o, kind, id), other) == Registry(o, other)
  {
    hide Delete, Valid, Tracked;
    DeleteKeeps(Registry(o, kind), id);
    LeaveWaitJoinTracked(o, kind, id);
    assert Registry(o, kind).entries[id].span.slot == WaitJoinSlot(kind, id) by { SlotOfWaitJoin(o, kind, id); }
    assert LeaveWaitJoin(o, kind, id).log.gauge == o.log.gauge - 1;
  }

  lemma SlotOfWaitJoin(o: Operations, kind: Kind, id: Id)
    requires Tracked(o) && id in Registry(o, kind).entries
    ensures Registry(o, kind).entries[id].span.slot == WaitJoinSlot(kind, id)
    ensures Registry(o, kind).entries[id].span in o.log.active
  {
    assert InSlot(o, WaitJoinSlot(kind, id)).Some?;
  }
}
