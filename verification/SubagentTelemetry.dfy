/** The session object whose methods carry out the guarded subagent API step by step; each
    method is the corresponding function of the session's state. */
module SubagentTelemetry {
  import opened BoundedMaps
  import opened Optional
  import opened SubagentOperations
  import opened SubagentSession
  import AgentTree
  import F = FailureAccounting

  class Telemetry {
    const c: Context
    var spawns: BoundedMap<Id, Spawn>
    var waits: BoundedMap<Id, WaitJoin>
    var joins: BoundedMap<Id, WaitJoin>
    var nextSerial: nat
    var activeSpans: set<Span>
    var activeSpansGauge: int
    var endedSpans: seq<Span>
    var evictedSpans: set<Span>
    var spawnDurations: seq<Span>
    var subagentsSpawned: nat
    var spawnsEnded: nat
    var spawnsEvicted: nat
    var tree: AgentTree.Tree
    var accounting: F.Accounting
    var subagentSpawnFailures: nat

    ghost function Log(): SpanLog
      reads this
    {
      SpanLog(nextSerial, activeSpans, activeSpansGauge, endedSpans, evictedSpans)
    }

    ghost function Ops(): Operations
      reads this
    {
      Operations(spawns, waits, joins, Log(), spawnDurations, subagentsSpawned, spawnsEnded, spawnsEvicted)
    }

    ghost function State(): Session
      reads this
    {
      Session(Ops(), tree, accounting, subagentSpawnFailures)
    }

    constructor (c: Context, maxSpawns: nat, maxWaits: nat, maxJoins: nat)
      requires 1 <= maxSpawns && 1 <= maxWaits && 1 <= maxJoins
      ensures this.c == c && State() == Open(c, maxSpawns, maxWaits, maxJoins)
    {
      this.c := c;
      spawns, waits, joins := Create(maxSpawns), Create(maxWaits), Create(maxJoins);
      nextSerial, activeSpans, activeSpansGauge, endedSpans, evictedSpans := 0, {}, 0, [], {};
      spawnDurations, subagentsSpawned, spawnsEnded, spawnsEvicted, subagentSpawnFailures := [], 0, 0, 0, 0;
      tree := AgentTree.Register(Create(if maxSpawns + 1 > 2 then maxSpawns + 1 else 2), c.self, AgentTree.Active);
      accounting := F.Start(maxSpawns);
    }

    // ----- spans -----

    method StartActiveSpan(slot: Slot) returns (span: Span)
      modifies this`nextSerial, this`activeSpans, this`activeSpansGauge
      ensures span == Span(old(nextSerial), slot) && Log() == Opened(old(Log()), slot)
    {
      span := Span(nextSerial, slot);
      nextSerial := nextSerial + 1;
      activeSpans := activeSpans + {span};
      activeSpansGauge := activeSpansGauge + 1;
    }

    method EndSpan(span: Span)
      modifies this`activeSpans, this`activeSpansGauge, this`endedSpans
      ensures Log() == Closed(old(Log()), span)
    {
      if span in activeSpans {
        activeSpansGauge := activeSpansGauge - 1;
        activeSpans := activeSpans - {span};
      }
      endedSpans := endedSpans + [span];
    }

    method EvictSpan(span: Span)
      modifies this`activeSpans, this`activeSpansGauge, this`endedSpans, this`evictedSpans
      ensures Log() == Evict(old(Log()), span)
    {
      evictedSpans := evictedSpans + {span};
      EndSpan(span);
    }

    // ----- spawns -----

    method IsChildRetained(child: Id) returns (retained: bool)
      requires Valid(spawns)
      ensures retained <==> ChildRetained(State(), child)
    {
      if child in tree.entries {
        return true;
      }
      var i := 0;
      while i < |spawns.order|
        invariant 0 <= i <= |spawns.order|
        invariant forall j | 0 <= j < i :: spawns.entries[spawns.order[j]].child != child
      {
        if spawns.entries[spawns.order[i]].child == child {
          assert spawns.order[i] in State().ops.spawns.entries;
          return true;
        }
        i := i + 1;
      }
      forall id | id in spawns.entries ensures spawns.entries[id].child != child {
        assert id in spawns.order;
      }
      return false;
    }

    method StartSubagent(spawnId: Id, child: Id) returns (outcome: Outcome)
      requires Registered(Ops())
      modifies this
      ensures (State(), outcome) == AfterStart(c, old(State()), spawnId, child)
    {
      hide AgentTree.Register, Opened, EnterSpawn;
      if spawnId in spawns.entries {
        return Refused(SpawnAlreadyExists);
      }
      var retained := IsChildRetained(child);
      if retained {
        return Refused(ChildAlreadyExists);
      }
      ghost var before := Ops();
      var span := StartActiveSpan(SpawnSlot(spawnId));
      tree := AgentTree.Register(tree, ChildLineage(c.self, child), AgentTree.Starting);
      FileSpawn(spawnId, Spawn(span, child, false), before);
      return Done;
    }

    method FileSpawn(spawnId: Id, spawn: Spawn, ghost before: Operations)
      requires Registered(before) && spawnId !in spawns.entries
      requires Ops() == before.(log := Opened(before.log, SpawnSlot(spawnId)))
      requires spawn == Spawn(Span(before.log.next, SpawnSlot(spawnId)), spawn.child, false)
      modifies this`spawns, this`activeSpans, this`activeSpansGauge, this`endedSpans, this`evictedSpans,
          this`spawnsEvicted,
               this`subagentsSpawned
      ensures Ops() == EnterSpawn(before, spawnId, spawn.child)
    {
      hide Put, Evict, Opened, EvictedBy, Valid;
      var oldest := EvictedBy(spawns, spawnId);
      PutKeeps(spawns, spawnId, spawn);
      if oldest.Some? {
        var evicted := spawns.entries[oldest.value];
        spawns := Put(spawns, spawnId, spawn);
        EvictSpan(evicted.span);
        spawnsEvicted := spawnsEvicted + 1;
      } else {
        spawns := Put(spawns, spawnId, spawn);
      }
      subagentsSpawned := subagentsSpawned + 1;
    }

    method RecordSpawnDuration(spawnId: Id)
      requires spawnId in spawns.entries
      modifies this`spawns, this`spawnDurations
      ensures Ops() == RecordDuration(old(Ops()), spawnId)
    {
      var spawn := spawns.entries[spawnId];
      if spawn.launcherCompleted {
        return;
      }
      spawnDurations := spawnDurations + [spawn.span];
      spawns := spawns.(entries := spawns.entries[spawnId := spawn.(launcherCompleted := true)]);
    }

    method RemoveSpawn(spawnId: Id)
      requires spawnId in spawns.entries
      modifies this`spawns, this`spawnDurations, this`activeSpans, this`activeSpansGauge, this`endedSpans,
          this`spawnsEnded
      ensures Ops() == LeaveSpawn(old(Ops()), spawnId)
    {
      hide Delete, Closed;
      var span := spawns.entries[spawnId].span;
      RecordSpawnDuration(spawnId);
      EndSpan(span);
      spawns := Delete(spawns, spawnId);
      spawnsEnded := spawnsEnded + 1;
    }

    method CompleteSubagentLaunch(spawnId: Id, named: Option<Id>) returns (outcome: Outcome)
      modifies this
      ensures (State(), outcome) == AfterLaunch(old(State()), spawnId, named)
    {
      hide AgentTree.Update, RecordDuration;
      if spawnId !in spawns.entries {
        return Refused(SpawnNotFound);
      }
      var spawn := spawns.entries[spawnId];
      var child := if named.Some? then named.value else spawn.child;
      if child != spawn.child {
        return Refused(ChildMismatch);
      }
      if spawn.launcherCompleted {
        return Done;
      }
      if child !in tree.entries || !tree.entries[child].status.Starting? {
        return Refused(InvalidTransition);
      }
      RecordSpawnDuration(spawnId);
      tree := AgentTree.Update(tree, child, AgentTree.Active);
      return Done;
    }

    method RecordTerminal(spawnId: Id, status: Status)
      requires spawnId in spawns.entries
      modifies this
      ensures State() == Terminal(c, old(State()), spawnId, status)
    {
      hide AgentTree.Update, F.Record, LeaveSpawn;
      var child := spawns.entries[spawnId].child;
      tree := AgentTree.Update(tree, child, status);
      if status.Failed? {
        accounting := F.Record(accounting, child, false, c.positions);
      }
      RemoveSpawn(spawnId);
    }

    method CompleteSubagent(spawnId: Id, named: Option<Id>, childStatus: Option<Status>, reported: Option<Status>)
      returns (outcome: Outcome)
      modifies this
      ensures (State(), outcome) == AfterComplete(c, old(State()), spawnId, named, childStatus, reported)
    {
      hide Terminal;
      if spawnId !in spawns.entries {
        return Refused(SpawnNotFound);
      }
      var spawn := spawns.entries[spawnId];
      var child := if named.Some? then named.value else spawn.child;
      var requested :=
        if childStatus.Some? then childStatus.value
        else if reported.Some? then reported.value
        else AgentTree.Completed;
      if !Ending(requested) {
        return Refused(InvalidTransition);
      }
      if childStatus.Some? && reported.Some? && childStatus.value != reported.value {
        return Refused(InvalidTransition);
      }
      if child != spawn.child {
        return Refused(ChildMismatch);
      }
      if child !in tree.entries || !AgentTree.TransitionAllowed(tree.entries[child].status, requested) {
        return Refused(InvalidTransition);
      }
      RecordTerminal(spawnId, requested);
      return Done;
    }

    method FailSubagent(spawnId: Id, named: Option<Id>) returns (outcome: Outcome)
      modifies this
      ensures (State(), outcome) == AfterFail(old(State()), spawnId, named)
    {
      hide AgentTree.Update, LeaveSpawn;
      if spawnId !in spawns.entries {
        return Refused(SpawnNotFound);
      }
      var spawn := spawns.entries[spawnId];
      var child := if named.Some? then named.value else spawn.child;
      if child != spawn.child {
        return Refused(ChildMismatch);
      }
      if child !in tree.entries || !tree.entries[child].status.Starting? {
        return Refused(InvalidTransition);
      }
      tree := AgentTree.Update(tree, child, AgentTree.Failed);
      RemoveSpawn(spawnId);
      subagentSpawnFailures := subagentSpawnFailures + 1;
      return Done;
    }

    // ----- waits and joins -----

    method SetRegistry(kind: Kind, registry: BoundedMap<Id, WaitJoin>)
      modifies this`waits, this`joins
      ensures Ops() == WithRegistry(old(Ops()), kind, registry)
    {
      match kind
      case Wait => waits := registry;
      case Join => joins := registry;
    }

    method StartWaitOrJoin(kind: Kind, id: Id, options: Options) returns (outcome: Outcome)
      requires Registered(Ops())
      modifies this
      ensures (State(), outcome) == AfterStartWaitJoin(old(State()), kind, id, options)
    {
      hide AgentTree.Update, EnterWaitJoin;
      var registry := if kind.Wait? then waits else joins;
      if id in registry.entries {
        return Refused(AlreadyExists(kind));
      }
      FileWaitOrJoin(kind, id, options);
      if options.child.Some? && options.childStatus == Some(AgentTree.Active) {
        if options.child.value in tree.entries && tree.entries[options.child.value].status.Starting? {
          tree := AgentTree.Update(tree, options.child.value, AgentTree.Active);
        }
      }
      return Done;
    }

    method FileWaitOrJoin(kind: Kind, id: Id, options: Options)
      requires Registered(Ops()) && id !in Registry(Ops(), kind).entries
      modifies this`waits, this`joins, this`nextSerial, this`activeSpans, this`activeSpansGauge, this`endedSpans,
          this`evictedSpans
      ensures Ops() == EnterWaitJoin(old(Ops()), kind, id, options)
    {
      hide Put, Evict, Opened, EvictedBy, Valid;
      var registry := if kind.Wait? then waits else joins;
      var span := StartActiveSpan(WaitJoinSlot(kind, id));
      var filed := WaitJoin(span, id, kind, options);
      var oldest := EvictedBy(registry, id);
      PutKeeps(registry, id, filed);
      SetRegistry(kind, Put(registry, id, filed));
      if oldest.Some? {
        EvictSpan(registry.entries[oldest.value].span);
      }
    }

    method FinishWaitOrJoin(kind: Kind, id: Id, o: Options)
      requires id in Registry(Ops(), kind).entries
      modifies this
      ensures State() == CompleteWaitJoin(c, old(State()), kind, id, o)
    {
      hide AgentTree.Update, F.Record, Delete, Closed;
      if o.child.Some? && o.childStatus.Some? {
        tree := AgentTree.Update(tree, o.child.value, o.childStatus.value);
      }
      var registry := if kind.Wait? then waits else joins;
      EndSpan(registry.entries[id].span);
      SetRegistry(kind, Delete(registry, id));
      if kind.Join? && o.child.Some? && o.childStatus == Some(AgentTree.Failed) {
        var recoveryConfirmed := o.failurePropagated == Some(false) && o.joinStatus == Some(JoinCompleted);
        accounting := F.Record(accounting, o.child.value, recoveryConfirmed, c.positions);
      }
    }

    method EndWaitOrJoin(kind: Kind, id: Id, named: Option<Id>, given: Options) returns (outcome: Outcome)
      modifies this
      ensures (State(), outcome) == AfterEndWaitJoin(c, old(State()), kind, id, named, given)
    {
      hide CompleteWaitJoin, Resolved, SameIdentity, AnotherSpawnsChild, BackwardTransition;
      var registry := if kind.Wait? then waits else joins;
      if id !in registry.entries {
        return Refused(NotFound(kind));
      }
      var w := registry.entries[id];
      if w.id != id || w.kind != kind {
        return Refused(SpawnNotFound);
      }
      var o := Resolved(w.options, given);
      var same := HasSameIdentity(w, named, given);
      if !same {
        return Refused(ChildMismatch);
      }
      var another := NamesAnotherSpawnsChild(o);
      if another {
        return Refused(ChildMismatch);
      }
      var backward := IsBackwardTransition(o);
      if backward {
        return Refused(InvalidTransition);
      }
      FinishWaitOrJoin(kind, id, o);
      return Done;
    }

    method HasSameIdentity(w: WaitJoin, named: Option<Id>, given: Options) returns (same: bool)
      ensures same <==> SameIdentity(w, named, given)
    {
      if named.Some? && named.value != w.id {
        return false;
      }
      if given.spawnId.Some? && given.spawnId != w.options.spawnId {
        return false;
      }
      return !(given.child.Some? && given.child != w.options.child);
    }

    method NamesAnotherSpawnsChild(o: Options) returns (another: bool)
      ensures another <==> AnotherSpawnsChild(State(), o)
    {
      if o.child.None? || o.childStatus.None? || o.spawnId.None? || o.spawnId.value !in spawns.entries {
        return false;
      }
      return spawns.entries[o.spawnId.value].child != o.child.value;
    }

    method IsBackwardTransition(o: Options) returns (backward: bool)
      ensures backward <==> BackwardTransition(State(), o)
    {
      if o.child.None? || o.childStatus.None? || o.child.value !in tree.entries {
        return false;
      }
      return !AgentTree.TransitionAllowed(tree.entries[o.child.value].status, o.childStatus.value);
    }

    // ----- interruption -----

    method InterruptActiveOperations()
      modifies this
      ensures State() == AfterInterrupt(c, old(State()))
    {
      hide Terminal, CancelWaitJoin;
      ghost var target := CancelSpawns(c, State(), spawns.order);
      var ids := spawns.order;
      var i := 0;
      while i < |ids|
        invariant 0 <= i <= |ids|
        invariant CancelSpawns(c, State(), ids[i..]) == target
      {
        assert ids[i..][0] == ids[i] && ids[i..][1..] == ids[i + 1..];
        if ids[i] in spawns.entries {
          RecordTerminal(ids[i], AgentTree.Cancelled);
        }
        i := i + 1;
      }
      CancelAll(Wait);
      CancelAll(Join);
    }

    method CancelAll(kind: Kind)
      modifies this
      ensures State() == CancelWaitJoins(c, old(State()), kind, Registry(old(Ops()), kind).order)
    {
      var ids := (if kind.Wait? then waits else joins).order;
      ghost var target := CancelWaitJoins(c, State(), kind, ids);
      var i := 0;
      while i < |ids|
        invariant 0 <= i <= |ids|
        invariant CancelWaitJoins(c, State(), kind, ids[i..]) == target
      {
        assert ids[i..][0] == ids[i] && ids[i..][1..] == ids[i + 1..];
        CancelOne(kind, ids[i]);
        i := i + 1;
      }
    }

    method CancelOne(kind: Kind, id: Id)
      modifies this
      ensures State() == CancelWaitJoin(c, old(State()), kind, id)
    {
      hide CompleteWaitJoin;
      var registry := if kind.Wait? then waits else joins;
      if id !in registry.entries {
        return;
      }
      var filed := registry.entries[id].options;
      var status := AgentTree.Cancelled;
      if filed.child.Some? && filed.child.value in tree.entries
          && AgentTree.Terminal(tree.entries[filed.child.value].status) {
        status := tree.entries[filed.child.value].status;
      }
      FinishWaitOrJoin(kind, id, Resolved(filed, Options(None, None, Some(status), Some(JoinCancelled), None)));
    }
  }
}
