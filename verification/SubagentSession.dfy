/** The guarded subagent API over one session: starting, launching, completing and failing
    spawns, waiting for and joining children, and the interruption that ends them all. */
module SubagentSession {
  import opened BoundedMaps
  import opened Optional
  import opened SubagentOperations
  import AgentTree
  import F = FailureAccounting

  /** The session's own lineage, and the digest positions of its failure archive. */
  datatype Context = Context(self: AgentTree.Lineage, positions: F.Positions)

  datatype Session = Session(ops: Operations, tree: AgentTree.Tree, accounting: F.Accounting, spawnFailures: nat)

  datatype Reason =
    | SpawnAlreadyExists | ChildAlreadyExists | SpawnNotFound | ChildMismatch | InvalidTransition
    | AlreadyExists(kind: Kind) | NotFound(kind: Kind)

  datatype Outcome = Done | Refused(reason: Reason)

  function Open(c: Context, maxSpawns: nat, maxWaits: nat, maxJoins: nat): Session {
    var capacity := if maxSpawns + 1 > 2 then maxSpawns + 1 else 2;
    Session(
      Fresh(maxSpawns, maxWaits, maxJoins),
      AgentTree.Register(Create(capacity), c.self, AgentTree.Active),
      F.Start(maxSpawns),
      0)
  }

  // ----- spawns -----

  function ChildLineage(self: AgentTree.Lineage, child: Id): AgentTree.Lineage {
    AgentTree.Lineage(child, self.workflowId, self.rootAgentId, self.agentId, self.depth + 1, false)
  }

  predicate ChildRetained(s: Session, child: Id) {
    child in s.tree.entries || exists i :: i in s.ops.spawns.entries && s.ops.spawns.entries[i].child == child
  }

  function AfterStart(c: Context, s: Session, spawnId: Id, child: Id): (Session, Outcome) {
    if spawnId in s.ops.spawns.entries then (s, Refused(SpawnAlreadyExists))
    else if ChildRetained(s, child) then (s, Refused(ChildAlreadyExists))
    else
      (s.(ops := EnterSpawn(s.ops, spawnId, child),
          tree := AgentTree.Register(s.tree, ChildLineage(c.self, child), AgentTree.Starting)), Done)
  }

  function AfterLaunch(s: Session, spawnId: Id, named: Option<Id>): (Session, Outcome) {
    if spawnId !in s.ops.spawns.entries then (s, Refused(SpawnNotFound))
    else
      var spawn := s.ops.spawns.entries[spawnId];
      if named.Some? && named.value != spawn.child then (s, Refused(ChildMismatch))
      else if spawn.launcherCompleted then (s, Done)
      else if !(spawn.child in s.tree.entries && s.tree.entries[spawn.child].status.Starting?)
      then (s, Refused(InvalidTransition))
      else
        (s.(ops := RecordDuration(s.ops, spawnId), tree := AgentTree.Update(s.tree, spawn.child, AgentTree.Active)),
         Done)
  }

  predicate Ending(status: Status) {
    status.Completed? || status.Failed? || status.Cancelled?
  }

  /** `recordSubagentSpawnTerminal`. */
  function Terminal(c: Context, s: Session, spawnId: Id, status: Status): Session
    requires spawnId in s.ops.spawns.entries
  {
    var child := s.ops.spawns.entries[spawnId].child;
    Session(
      LeaveSpawn(s.ops, spawnId),
      AgentTree.Update(s.tree, child, status),
      if status.Failed? then F.Record(s.accounting, child, false, c.positions) else s.accounting,
      s.spawnFailures)
  }

  function AfterComplete(c: Context, s: Session, spawnId: Id, named: Option<Id>, childStatus: Option<Status>,
      outcome: Option<Status>)
    : (Session, Outcome)
  {
    if spawnId !in s.ops.spawns.entries then (s, Refused(SpawnNotFound))
    else
      var spawn := s.ops.spawns.entries[spawnId];
      var requested := if Or(childStatus, outcome).Some? then Or(childStatus, outcome).value else AgentTree.Completed;
      if !Ending(requested) then (s, Refused(InvalidTransition))
      else if childStatus.Some? && outcome.Some? && childStatus != outcome then (s, Refused(InvalidTransition))
      else if named.Some? && named.value != spawn.child then (s, Refused(ChildMismatch))
      else if !AgentTree.Accepts(s.tree, spawn.child, requested) then (s, Refused(InvalidTransition))
      else (Terminal(c, s, spawnId, requested), Done)
  }

  function AfterFail(s: Session, spawnId: Id, named: Option<Id>): (Session, Outcome) {
    if spawnId !in s.ops.spawns.entries then (s, Refused(SpawnNotFound))
    else
      var spawn := s.ops.spawns.entries[spawnId];
      if named.Some? && named.value != spawn.child then (s, Refused(ChildMismatch))
      else if !(spawn.child in s.tree.entries && s.tree.entries[spawn.child].status.Starting?)
      then (s, Refused(InvalidTransition))
      else
        (Session(LeaveSpawn(s.ops, spawnId), AgentTree.Update(s.tree, spawn.child, AgentTree.Failed), s.accounting,
                 s.spawnFailures + 1), Done)
  }

  // ----- waits and joins -----

  function AfterStartWaitJoin(s: Session, kind: Kind, id: Id, options: Options): (Session, Outcome) {
    if id in Registry(s.ops, kind).entries then (s, Refused(AlreadyExists(kind)))
    else
      var activates :=
        && options.child.Some? && options.childStatus == Some(AgentTree.Active)
        && options.child.value in s.tree.entries && s.tree.entries[options.child.value].status.Starting?;
      (s.(ops := EnterWaitJoin(s.ops, kind, id, options),
          tree := if activates then AgentTree.Update(s.tree, options.child.value, AgentTree.Active) else s.tree), Done)
  }

  /** `resolveWaitJoinCompletionOptions`. */
  function Resolved(filed: Options, given: Options): Options {
    Options(filed.spawnId, filed.child, Or(given.childStatus, filed.childStatus),
            Or(given.joinStatus, filed.joinStatus),
            Or(given.failurePropagated, filed.failurePropagated))
  }

  predicate SameIdentity(w: WaitJoin, named: Option<Id>, given: Options) {
    && (named.Some? ==> named.value == w.id)
    && (given.spawnId.Some? ==> given.spawnId == w.options.spawnId)
    && (given.child.Some? ==> given.child == w.options.child)
  }

  predicate AnotherSpawnsChild(s: Session, o: Options) {
    && o.child.Some? && o.childStatus.Some? && o.spawnId.Some? && o.spawnId.value in s.ops.spawns.entries
    && s.ops.spawns.entries[o.spawnId.value].child != o.child.value
  }

  predicate BackwardTransition(s: Session, o: Options) {
    && o.child.Some? && o.childStatus.Some? && o.child.value in s.tree.entries
    && !AgentTree.TransitionAllowed(s.tree.entries[o.child.value].status, o.childStatus.value)
  }

  /** `completeWaitJoinSpan` and the failure accounting of joins. */
  function CompleteWaitJoin(c: Context, s: Session, kind: Kind, id: Id, o: Options): Session
    requires id in Registry(s.ops, kind).entries
  {
    var recovered := o.failurePropagated == Some(false) && o.joinStatus == Some(JoinCompleted);
    Session(
      LeaveWaitJoin(s.ops, kind, id),
      if o.child.Some? && o.childStatus.Some? then AgentTree.Update(s.tree, o.child.value, o.childStatus.value)
      else s.tree,
      if kind.Join? && o.child.Some? && o.childStatus == Some(AgentTree.Failed)
      then F.Record(s.accounting, o.child.value, recovered, c.positions)
      else s.accounting,
      s.spawnFailures)
  }

  function AfterEndWaitJoin(c: Context, s: Session, kind: Kind, id: Id, named: Option<Id>,
      given: Options): (Session, Outcome) {
    if id !in Registry(s.ops, kind).entries then (s, Refused(NotFound(kind)))
    else
      var w := Registry(s.ops, kind).entries[id];
      var o := Resolved(w.options, given);
      if w.id != id || w.kind != kind then (s, Refused(SpawnNotFound))
      else if !SameIdentity(w, named, given) || AnotherSpawnsChild(s, o) then (s, Refused(ChildMismatch))
      else if BackwardTransition(s, o) then (s, Refused(InvalidTransition))
      else (CompleteWaitJoin(c, s, kind, id, o), Done)
  }

  // ----- interruption -----

  /** `resolveInterruptedChildStatus`. */
  function InterruptedStatus(s: Session, child: Option<Id>): Status {
    if child.Some? && child.value in s.tree.entries && AgentTree.Terminal(s.tree.entries[child.value].status)
    then s.tree.entries[child.value].status
    else AgentTree.Cancelled
  }

  function CancelSpawns(c: Context, s: Session, ids: seq<Id>): Session
    decreases |ids|
  {
    if ids == [] then s
    else if ids[0] in s.ops.spawns.entries then CancelSpawns(c, Terminal(c, s, ids[0], AgentTree.Cancelled), ids[1..])
    else CancelSpawns(c, s, ids[1..])
  }

  function CancelWaitJoin(c: Context, s: Session, kind: Kind, id: Id): Session {
    if id !in Registry(s.ops, kind).entries then s
    else
      var filed := Registry(s.ops, kind).entries[id].options;
      var given := Options(None, None, Some(InterruptedStatus(s, filed.child)), Some(JoinCancelled), None);
      CompleteWaitJoin(c, s, kind, id, Resolved(filed, given))
  }

  function CancelWaitJoins(c: Context, s: Session, kind: Kind, ids: seq<Id>): Session
    decreases |ids|
  {
    if ids == [] then s else CancelWaitJoins(c, CancelWaitJoin(c, s, kind, ids[0]), kind, ids[1..])
  }

  function AfterInterrupt(c: Context, s: Session): Session {
    var withoutSpawns := CancelSpawns(c, s, s.ops.spawns.order);
    var withoutWaits := CancelWaitJoins(c, withoutSpawns, Wait, withoutSpawns.ops.waits.order);
    CancelWaitJoins(c, withoutWaits, Join, withoutWaits.ops.joins.order)
  }

  // ----- runs -----

  datatype Event =
    | StartSpawn(spawnId: Id, child: Id)
    | CompleteLaunch(spawnId: Id, named: Option<Id>)
    | CompleteSpawn(spawnId: Id, named: Option<Id>, childStatus: Option<Status>, outcome: Option<Status>)
    | FailSpawn(spawnId: Id, named: Option<Id>)
    | StartWaitJoin(kind: Kind, id: Id, options: Options)
    | EndWaitJoin(kind: Kind, id: Id, named: Option<Id>, options: Options)
    | Interrupt

  function Step(c: Context, s: Session, e: Event): (Session, Outcome) {
    match e
    case StartSpawn(spawnId, child) => AfterStart(c, s, spawnId, child)
    case CompleteLaunch(spawnId, named) => AfterLaunch(s, spawnId, named)
    case CompleteSpawn(spawnId, named, childStatus, outcome) =>
      AfterComplete(c, s, spawnId, named, childStatus, outcome)
    case FailSpawn(spawnId, named) => AfterFail(s, spawnId, named)
    case StartWaitJoin(kind, id, options) => AfterStartWaitJoin(s, kind, id, options)
    case EndWaitJoin(kind, id, named, options) => AfterEndWaitJoin(c, s, kind, id, named, options)
    case Interrupt => (AfterInterrupt(c, s), Done)
  }

  function Run(c: Context, s: Session, events: seq<Event>): Session
    decreases |events|
  {
    if events == [] then s else Run(c, Step(c, s, events[0]).0, events[1..])
  }

  // ----- what every reachable session keeps -----

  ghost predicate Sound(c: Context, s: Session) {
    && SubagentOperations.Consistent(s.ops) && AgentTree.Consistent(s.tree) && F.Sound(s.accounting, c.positions)
    && (c.self.agentId != "" ==> c.self.agentId in s.tree.entries) && 2 <= s.tree.maxSize
  }

  lemma OpenIsSound(c: Context, maxSpawns: nat, maxWaits: nat, maxJoins: nat)
    requires 1 <= maxSpawns && 1 <= maxWaits && 1 <= maxJoins
    ensures Sound(c, Open(c, maxSpawns, maxWaits, maxJoins))
  {
    hide AgentTree.Register, SubagentOperations.Consistent;
    FreshIsConsistent(maxSpawns, maxWaits, maxJoins);
    AgentTree.RegisterKeeps(Create(if maxSpawns + 1 > 2 then maxSpawns + 1 else 2), c.self, AgentTree.Active);
  }

  /** A session opens with empty registries of the sizes asked for, no span and nothing counted,
      and with its own agent alone in a tree that has room for one more than the spawns, and for
      two at least. */
  lemma OpensEmpty(c: Context, maxSpawns: nat, maxWaits: nat, maxJoins: nat)
    requires 1 <= maxSpawns && 1 <= maxWaits && 1 <= maxJoins
    ensures var s := Open(c, maxSpawns, maxWaits, maxJoins);
            var o := s.ops;
            && o.spawns.maxSize == maxSpawns && o.waits.maxSize == maxWaits && o.joins.maxSize == maxJoins
            && o.spawns.entries == map[] && o.waits.entries == map[] && o.joins.entries == map[]
            && o.log == SpanLog(0, {}, 0, [], {}) && o.durations == []
            && o.started == o.ended == o.evicted == 0
            && s.tree.maxSize == Max(2, maxSpawns + 1) && s.tree.entries.Keys == {c.self.agentId}
            && s.tree.entries[c.self.agentId].lineage == c.self
            && s.tree.entries[c.self.agentId].status ==
                 (if c.self.orphaned || (c.self.parentAgentId != "") then AgentTree.Orphaned else AgentTree.Active)
            && s.accounting.registry == BoundedMap(maxSpawns, [], map[]) && s.accounting.bits == {}
            && s.accounting.failures == s.accounting.recoveries == [] && s.spawnFailures == 0
  {
    hide AgentTree.Register;
    var empty: AgentTree.Tree := Create(Max(2, maxSpawns + 1));
    AgentTree.RegistrationTakesEffect(empty, c.self, AgentTree.Active);
    AgentTree.RegisterKeeps(empty, c.self, AgentTree.Active);
  }

  function Max(a: nat, b: nat): nat { if a > b then a else b }

  lemma StartKeeps(c: Context, s: Session, spawnId: Id, child: Id)
    requires Sound(c, s)
    ensures Sound(c, AfterStart(c, s, spawnId, child).0)
    ensures AfterStart(c, s, spawnId, child).1.Done? ==>
              var after := AfterStart(c, s, spawnId, child).0;
              && child in after.tree.entries && after.tree.entries[child].status == AgentTree.Starting
              && (c.self.agentId != "" ==> child in after.tree.entries[c.self.agentId].childIds)
              && spawnId in after.ops.spawns.entries && after.ops.spawns.entries[spawnId].child == child
  {
    hide SubagentOperations.Consistent, AgentTree.Consistent, F.Sound, AgentTree.Register;
    if AfterStart(c, s, spawnId, child).1.Done? {
      EnterSpawnKeeps(s.ops, spawnId, child);
      var l := ChildLineage(c.self, child);
      AgentTree.RegisterKeeps(s.tree, l, AgentTree.Starting);
      AgentTree.RegisteredStatus(s.tree, l, AgentTree.Starting);
      if c.self.agentId != "" {
        AgentTree.RegistrationSparesTheParent(s.tree, l, AgentTree.Starting);
      }
    }
  }

  lemma TreeUpdateKeeps(c: Context, s: Session, agent: Id, status: Status)
    requires Sound(c, s)
    ensures Sound(c, s.(tree := AgentTree.Update(s.tree, agent, status)))
  {
    AgentTree.UpdateKeeps(s.tree, agent, status);
  }

  lemma TerminalKeeps(c: Context, s: Session, spawnId: Id, status: Status)
    requires Sound(c, s) && spawnId in s.ops.spawns.entries
    ensures Sound(c, Terminal(c, s, spawnId, status))
    ensures Terminal(c, s, spawnId, status).ops.spawns.entries.Keys == s.ops.spawns.entries.Keys - {spawnId}
  {
    var child := s.ops.spawns.entries[spawnId].child;
    LeaveSpawnKeeps(s.ops, spawnId);
    AgentTree.UpdateKeeps(s.tree, child, status);
    F.RecordKeepsSound(s.accounting, child, false, c.positions);
  }

  lemma CompleteWaitJoinKeeps(c: Context, s: Session, kind: Kind, id: Id, o: Options)
    requires Sound(c, s) && id in Registry(s.ops, kind).entries
    ensures var after := CompleteWaitJoin(c, s, kind, id, o);
            && Sound(c, after) && after.ops.spawns == s.ops.spawns
            && Registry(after.ops, kind) == Delete(Registry(s.ops, kind), id)
            && forall other: Kind :: other != kind ==> Registry(after.ops, other) == Registry(s.ops, other)
  {
    LeaveWaitJoinKeeps(s.ops, kind, id);
    if o.child.Some? {
      if o.childStatus.Some? {
        AgentTree.UpdateKeeps(s.tree, o.child.value, o.childStatus.value);
      }
      var recovered := o.failurePropagated == Some(false) && o.joinStatus == Some(JoinCompleted);
      F.RecordKeepsSound(s.accounting, o.child.value, recovered, c.positions);
    }
  }

  lemma {:induction false} CancelSpawnsKeeps(c: Context, s: Session, ids: seq<Id>)
    requires Sound(c, s) && (forall id | id in s.ops.spawns.entries :: id in ids)
    ensures Sound(c, CancelSpawns(c, s, ids)) && CancelSpawns(c, s, ids).ops.spawns.entries == map[]
    decreases |ids|
  {
    hide SubagentOperations.Consistent, AgentTree.Consistent, F.Sound, Terminal;
    if ids == [] {
      assert s.ops.spawns.entries.Keys == {};
    } else {
      assert ids == [ids[0]] + ids[1..];
      if ids[0] in s.ops.spawns.entries {
        TerminalKeeps(c, s, ids[0], AgentTree.Cancelled);
        CancelSpawnsKeeps(c, Terminal(c, s, ids[0], AgentTree.Cancelled), ids[1..]);
      } else {
        CancelSpawnsKeeps(c, s, ids[1..]);
      }
    }
  }

  lemma CancelWaitJoinKeeps(c: Context, s: Session, kind: Kind, id: Id)
    requires Sound(c, s)
    ensures var after := CancelWaitJoin(c, s, kind, id);
            && Sound(c, after) && after.ops.spawns == s.ops.spawns
            && Registry(after.ops, kind).entries.Keys == Registry(s.ops, kind).entries.Keys - {id}
            && forall other: Kind :: other != kind ==> Registry(after.ops, other) == Registry(s.ops, other)
  {
    hide SubagentOperations.Consistent, AgentTree.Consistent, F.Sound, CompleteWaitJoin;
    if id in Registry(s.ops, kind).entries {
      var filed := Registry(s.ops, kind).entries[id].options;
      var given := Options(None, None, Some(InterruptedStatus(s, filed.child)), Some(JoinCancelled), None);
      CompleteWaitJoinKeeps(c, s, kind, id, Resolved(filed, given));
    }
  }

  lemma {:induction false} CancelWaitJoinsKeeps(c: Context, s: Session, kind: Kind, ids: seq<Id>)
    requires Sound(c, s) && (forall id | id in Registry(s.ops, kind).entries :: id in ids)
    ensures var after := CancelWaitJoins(c, s, kind, ids);
            && Sound(c, after) && after.ops.spawns == s.ops.spawns && Registry(after.ops, kind).entries == map[]
            && forall other: Kind :: other != kind ==> Registry(after.ops, other) == Registry(s.ops, other)
    decreases |ids|
  {
    hide Sound, CancelWaitJoin;
    if ids == [] {
      assert Registry(s.ops, kind).entries.Keys == {};
    } else {
      assert ids == [ids[0]] + ids[1..];
      CancelWaitJoinKeeps(c, s, kind, ids[0]);
      CancelWaitJoinsKeeps(c, CancelWaitJoin(c, s, kind, ids[0]), kind, ids[1..]);
    }
  }

  lemma ListedKeys<V>(m: BoundedMap<Id, V>)
    requires Valid(m)
    ensures forall id | id in m.entries :: id in m.order
  {
  }

  lemma InterruptKeeps(c: Context, s: Session)
    requires Sound(c, s)
    ensures var after := AfterInterrupt(c, s);
            && Sound(c, after)
            && after.ops.spawns.entries == map[] && after.ops.waits.entries == map[] && after.ops.joins.entries == map[]
  {
    hide AgentTree.Consistent, F.Sound, CancelSpawns, CancelWaitJoins;
    ListedKeys(s.ops.spawns);
    CancelSpawnsKeeps(c, s, s.ops.spawns.order);
    var withoutSpawns := CancelSpawns(c, s, s.ops.spawns.order);
    ListedKeys(withoutSpawns.ops.waits);
    CancelWaitJoinsKeeps(c, withoutSpawns, Wait, withoutSpawns.ops.waits.order);
    var withoutWaits := CancelWaitJoins(c, withoutSpawns, Wait, withoutSpawns.ops.waits.order);
    ListedKeys(withoutWaits.ops.joins);
    CancelWaitJoinsKeeps(c, withoutWaits, Join, withoutWaits.ops.joins.order);
    assert Registry(withoutWaits.ops, Wait) == withoutWaits.ops.waits;
    assert Registry(AfterInterrupt(c, s).ops, Wait) == AfterInterrupt(c, s).ops.waits;
  }

  lemma StepKeeps(c: Context, s: Session, e: Event)
    requires Sound(c, s)
    ensures Sound(c, Step(c, s, e).0)
  {
    hide SubagentOperations.Consistent, AgentTree.Consistent, F.Sound, EnterSpawn, EnterWaitJoin, AgentTree.Update;
    match e
    case StartSpawn(spawnId, child) => StartKeeps(c, s, spawnId, child);
    case CompleteLaunch(spawnId, named) =>
      if spawnId in s.ops.spawns.entries {
        RecordDurationKeeps(s.ops, spawnId);
        TreeUpdateKeeps(c, s, s.ops.spawns.entries[spawnId].child, AgentTree.Active);
      }
    case CompleteSpawn(spawnId, named, childStatus, outcome) =>
      if spawnId in s.ops.spawns.entries {
        var status := if Or(childStatus, outcome).Some? then Or(childStatus, outcome).value else AgentTree.Completed;
        TerminalKeeps(c, s, spawnId, status);
      }
    case FailSpawn(spawnId, named) =>
      if spawnId in s.ops.spawns.entries {
        LeaveSpawnKeeps(s.ops, spawnId);
        TreeUpdateKeeps(c, s, s.ops.spawns.entries[spawnId].child, AgentTree.Failed);
      }
    case StartWaitJoin(kind, id, options) =>
      if id !in Registry(s.ops, kind).entries {
        EnterWaitJoinKeeps(s.ops, kind, id, options);
        if options.child.Some? {
          TreeUpdateKeeps(c, s, options.child.value, AgentTree.Active);
        }
      }
    case EndWaitJoin(kind, id, named, options) =>
      if id in Registry(s.ops, kind).entries {
        CompleteWaitJoinKeeps(c, s, kind, id, Resolved(Registry(s.ops, kind).entries[id].options, options));
      }
    case Interrupt => InterruptKeeps(c, s);
  }

  /** Main result: every run of the guarded API keeps the session sound. */
  lemma {:induction false} RunsKeepSessionsSound(c: Context, s: Session, events: seq<Event>)
    requires Sound(c, s)
    ensures Sound(c, Run(c, s, events))
    decreases |events|
  {
    if events != [] {
      StepKeeps(c, s, events[0]);
      RunsKeepSessionsSound(c, Step(c, s, events[0]).0, events[1..]);
    }
  }

  /** What soundness means for the counters, at any point of any run of a fresh session:
      spawns started are those active, ended and evicted; the gauge is the size of the three
      registries and of the set of open spans; no span was ended twice; active spawns have
      distinct children; and each spawn has at most one duration, exactly one once it ended. */
  lemma ReachableCounts(c: Context, maxSpawns: nat, maxWaits: nat, maxJoins: nat, events: seq<Event>)
    requires 1 <= maxSpawns && 1 <= maxWaits && 1 <= maxJoins
    ensures var o := Run(c, Open(c, maxSpawns, maxWaits, maxJoins), events).ops;
            && o.started == |o.spawns.entries| + o.ended + o.evicted
            && o.log.gauge == |o.spawns.entries| + |o.waits.entries| + |o.joins.entries| == |o.log.active|
            && Distinct(o.log.ended) && (forall span | span in o.log.ended :: span !in o.log.active)
            && DistinctChildren(o) && Distinct(o.durations)
            && (forall span | span in o.log.ended && span.slot.SpawnSlot? && span !in o.log.evicted ::
                 span in o.durations)
  {
    OpenIsSound(c, maxSpawns, maxWaits, maxJoins);
    RunsKeepSessionsSound(c, Open(c, maxSpawns, maxWaits, maxJoins), events);
    var o := Run(c, Open(c, maxSpawns, maxWaits, maxJoins), events).ops;
    OrderIsSize(o.spawns);
    OrderIsSize(o.waits);
    OrderIsSize(o.joins);
  }

  /** Main result: interruption empties the three registries, so no span stays open and the
      gauge returns to zero. */
  lemma InterruptionEndsEverything(c: Context, s: Session)
    requires Sound(c, s)
    ensures var o := AfterInterrupt(c, s).ops;
            && o.spawns.entries == map[] && o.waits.entries == map[] && o.joins.entries == map[]
            && o.log.active == {} && o.log.gauge == 0 && |o.log.ended| == o.log.next
  {
    InterruptKeeps(c, s);
    var o := AfterInterrupt(c, s).ops;
    OrderIsSize(o.spawns);
    OrderIsSize(o.waits);
    OrderIsSize(o.joins);
    assert o.log.active == {};
  }

  /** A refused call changes nothing. */
  lemma RefusalsChangeNothing(c: Context, s: Session, e: Event)
    requires Step(c, s, e).1.Refused?
    ensures Step(c, s, e).0 == s
  {
  }

  // ----- what accepted calls do -----

  /** The span of a slot was closed in the ordinary way, once, and nothing else about spans
      changed. */
  ghost predicate ClosedOne(before: Operations, after: Operations, span: Span) {
    && span in before.log.active && after.log.active == before.log.active - {span}
    && after.log.gauge == before.log.gauge - 1
    && after.log.ended == before.log.ended + [span] && after.log.evicted == before.log.evicted
    && after.log.next == before.log.next
  }

  /** One node's status changed and the other nodes are as they were. */
  ghost predicate OnlyStatus(before: AgentTree.Tree, after: AgentTree.Tree, agent: Id, status: Status) {
    && agent in before.entries && after.entries.Keys == before.entries.Keys && after.order == before.order
    && after.entries[agent].status == status && after.entries[agent].childIds == before.entries[agent].childIds
    && forall id | id in before.entries && id != agent :: after.entries[id] == before.entries[id]
  }

  lemma LeaveSpawnCloses(o: Operations, id: Id)
    requires SubagentOperations.Consistent(o) && id in o.spawns.entries
    ensures var after, span := LeaveSpawn(o, id), o.spawns.entries[id].span;
            && ClosedOne(o, after, span) && span in after.durations && o.durations <= after.durations
            && after.waits == o.waits && after.joins == o.joins && after.started == o.started
            && after.ended == o.ended + 1 && after.evicted == o.evicted
            && after.spawns.entries.Keys == o.spawns.entries.Keys - {id}
            && forall other | other in after.spawns.entries ::
                 after.spawns.entries[other].child == o.spawns.entries[other].child
  {
    hide Put, Delete, Valid;
    LeaveSpawnKeeps(o, id);
    RecordDurationKeeps(o, id);
    OthersAfterRecordDuration(o, id) by { ConsistentIsRegistered(o); }
    OthersAfterLeave(o, id);
    assert InSlot(o, SpawnSlot(id)).Some?;
  }

  lemma UpdateIsOnlyStatus(t: AgentTree.Tree, agent: Id, status: Status)
    requires AgentTree.Consistent(t) && AgentTree.Accepts(t, agent, status)
    ensures OnlyStatus(t, AgentTree.Update(t, agent, status), agent, status)
  {
    AgentTree.UpdateKeeps(t, agent, status);
  }

  /** The operations once a new entry has been filed under `slot` for a new span, and the
      registry has evicted its oldest entry, whose span that of `gone` is, if it was full. */
  ghost predicate FiledOne(before: Operations, after: Operations, slot: Slot, gone: Option<Span>) {
    var span := Span(before.log.next, slot);
    && after.log.next == before.log.next + 1 && after.durations == before.durations && after.ended == before.ended
    && (gone.None? ==>
          && after.log == before.log.(next := after.log.next, active := before.log.active + {span},
                                      gauge := before.log.gauge + 1))
    && (gone.Some? ==>
          && after.log.active == before.log.active + {span} - {gone.value} && after.log.gauge == before.log.gauge
          && after.log.ended == before.log.ended + [gone.value]
          && after.log.evicted == before.log.evicted + {gone.value})
  }

  /** A start is accepted exactly for a new spawn and a child that neither the tree nor an active
      spawn holds. It files the spawn, not yet launched, under a new active span, evicts the
      oldest spawn of a full registry, and registers the child as a starting child of the
      session's own agent, one level deeper; it changes nothing else. */
  lemma StartTakesEffect(c: Context, s: Session, spawnId: Id, child: Id)
    requires Sound(c, s)
    ensures var result := AfterStart(c, s, spawnId, child);
            if spawnId in s.ops.spawns.entries then result == (s, Refused(SpawnAlreadyExists))
            else if || child in s.tree.entries
                    || exists i :: i in s.ops.spawns.entries && s.ops.spawns.entries[i].child == child
            then result == (s, Refused(ChildAlreadyExists))
            else
              var after, o := result.0, s.ops;
              var full := |o.spawns.entries| == o.spawns.maxSize;
              var span := Span(o.log.next, SpawnSlot(spawnId));
              && result.1.Done? && after.accounting == s.accounting && after.spawnFailures == s.spawnFailures
              && after.ops.waits == o.waits && after.ops.joins == o.joins && after.ops.started == o.started + 1
              && after.ops.evicted == o.evicted + (if full then 1 else 0)
              && (full ==> o.spawns.order != [] && o.spawns.order[0] in o.spawns.entries)
              && FiledOne(o, after.ops, SpawnSlot(spawnId),
                          if full then Some(o.spawns.entries[o.spawns.order[0]].span) else None)
              && after.ops.spawns.entries ==
                   (if full then o.spawns.entries - {o.spawns.order[0]} else o.spawns.entries)
                   [spawnId := Spawn(span, child, false)]
              && var lineage := AgentTree.Lineage(
                   child, c.self.workflowId, c.self.rootAgentId, c.self.agentId, c.self.depth + 1, false);
                 after.tree == AgentTree.Register(s.tree, lineage, AgentTree.Starting)
  {
    hide AgentTree.Consistent, F.Sound, AgentTree.Register, Put, Tracked, Counted, Timed, DistinctChildren;
    if AfterStart(c, s, spawnId, child).1.Done? {
      var o := s.ops;
      var spawn := Spawn(Span(o.log.next, SpawnSlot(spawnId)), child, false);
      PutKeeps(o.spawns, spawnId, spawn);
      OrderIsSize(o.spawns);
      NewSpansAreNew(o, SpawnSlot(spawnId));
    }
  }

  lemma NewSpansAreNew(o: Operations, slot: Slot)
    requires SubagentOperations.Consistent(o)
    ensures forall id | id in o.spawns.entries ::
              o.spawns.entries[id].span in o.log.active && o.spawns.entries[id].span != Span(o.log.next, slot)
    ensures forall kind: Kind, id | id in Registry(o, kind).entries ::
              && Registry(o, kind).entries[id].span in o.log.active
              && Registry(o, kind).entries[id].span != Span(o.log.next, slot)
  {
    forall id | id in o.spawns.entries
      ensures o.spawns.entries[id].span in o.log.active && o.spawns.entries[id].span != Span(o.log.next, slot)
    {
      assert InSlot(o, SpawnSlot(id)) == Some(o.spawns.entries[id].span);
    }
    forall kind: Kind, id | id in Registry(o, kind).entries
      ensures Registry(o, kind).entries[id].span in o.log.active
      ensures Registry(o, kind).entries[id].span != Span(o.log.next, slot)
    {
      assert InSlot(o, WaitJoinSlot(kind, id)) == Some(Registry(o, kind).entries[id].span);
    }
  }

  /** A wait or join is accepted exactly under an identifier that its registry does not hold. It
      is filed with the options given under a new active span, evicting the oldest of a full
      registry; a retained child still starting is activated exactly if the options say it is
      active; nothing else changes. */
  lemma StartOfWaitJoinTakesEffect(c: Context, s: Session, kind: Kind, id: Id, options: Options)
    requires Sound(c, s)
    ensures var result, o := AfterStartWaitJoin(s, kind, id, options), s.ops;
            var registry := Registry(o, kind);
            if id in registry.entries then result == (s, Refused(AlreadyExists(kind)))
            else
              var after := result.0;
              var full := |registry.entries| == registry.maxSize;
              var span := Span(o.log.next, WaitJoinSlot(kind, id));
              && result.1.Done? && after.accounting == s.accounting && after.spawnFailures == s.spawnFailures
              && after.ops.spawns == o.spawns && after.ops.started == o.started && after.ops.evicted == o.evicted
              && (forall other: Kind | other != kind :: Registry(after.ops, other) == Registry(o, other))
              && (full ==> registry.order != [] && registry.order[0] in registry.entries)
              && FiledOne(o, after.ops, WaitJoinSlot(kind, id),
                          if full then Some(registry.entries[registry.order[0]].span) else None)
              && Registry(after.ops, kind).entries ==
                   (if full then registry.entries - {registry.order[0]} else registry.entries)
                   [id := WaitJoin(span, id, kind, options)]
              && (if options.child.Some? && options.childStatus == Some(AgentTree.Active)
                     && options.child.value in s.tree.entries && s.tree.entries[options.child.value].status.Starting?
                  then
                    OnlyStatus(s.tree, after.tree, options.child.value, AgentTree.Active)
                  else after.tree == s.tree)
  {
    hide AgentTree.Consistent, AgentTree.Update, F.Sound, Put, Tracked, Counted, Timed, DistinctChildren;
    var registry := Registry(s.ops, kind);
    if id !in registry.entries {
      PutKeeps(registry, id, WaitJoin(Span(s.ops.log.next, WaitJoinSlot(kind, id)), id, kind, options));
      OrderIsSize(registry);
      NewSpansAreNew(s.ops, WaitJoinSlot(kind, id));
      if options.child.Some? {
        UpdateEffect(s.tree, options.child.value, AgentTree.Active);
      }
    }
  }

  /** The spawn has left the registry in the ordinary way: its span is closed, it has its one
      duration, and the other registries and entries are as they were. */
  ghost predicate SpawnEnded(before: Operations, after: Operations, id: Id)
    requires id in before.spawns.entries
  {
    var spawn := before.spawns.entries[id];
    && ClosedOne(before, after, spawn.span)
    && after.durations == before.durations + (if spawn.launcherCompleted then [] else [spawn.span])
    && after.spawns.entries == before.spawns.entries - {id}
    && after.started == before.started && after.ended == before.ended + 1 && after.evicted == before.evicted
    && after.waits == before.waits && after.joins == before.joins
  }

  lemma LeavingEndsSpawn(o: Operations, id: Id)
    requires SubagentOperations.Consistent(o) && id in o.spawns.entries
    ensures SpawnEnded(o, LeaveSpawn(o, id), id)
  {
    hide Put, Delete, Valid, Tracked, Counted, Timed, DistinctChildren, ClosedOne;
    LeaveSpawnCloses(o, id);
    RecordDurationKeeps(o, id);
    ConsistentIsRegistered(o);
    PutKeeps(o.spawns, id, o.spawns.entries[id].(launcherCompleted := true));
    DeleteKeeps(RecordDuration(o, id).spawns, id);
    var spawns := RecordDuration(o, id).spawns.entries;
    assert spawns - {id} == o.spawns.entries - {id} by {
      forall other | other in o.spawns.entries && other != id
        ensures other in spawns && spawns[other] == o.spawns.entries[other]
      {
      }
    }
    assert o.durations + [] == o.durations;
  }

  /** A completion is accepted exactly for an active spawn, its own child, a terminal status on
      which the caller does not contradict itself, and a retained child that may take it. It
      then ends the spawn with its one duration, gives the child that status and nothing else
      any other, and reports a failure, without recovery, for a failed child only. */
  lemma CompletionTakesEffect(c: Context, s: Session, spawnId: Id, named: Option<Id>, childStatus: Option<Status>,
      outcome: Option<Status>)
    requires Sound(c, s)
    ensures var result := AfterComplete(c, s, spawnId, named, childStatus, outcome);
            if spawnId !in s.ops.spawns.entries then result == (s, Refused(SpawnNotFound))
            else
              var child := s.ops.spawns.entries[spawnId].child;
              var status := if childStatus.Some? then childStatus.value
                            else if outcome.Some? then outcome.value else AgentTree.Completed;
              if status.Starting? || status.Active? || status.Orphaned?
                 || (childStatus.Some? && outcome.Some? && childStatus.value != outcome.value)
              then result == (s, Refused(InvalidTransition))
              else if named.Some? && named.value != child then result == (s, Refused(ChildMismatch))
              else if child !in s.tree.entries || !AgentTree.TransitionAllowed(s.tree.entries[child].status, status)
              then result == (s, Refused(InvalidTransition))
              else
                var after := result.0;
                && result.1.Done? && SpawnEnded(s.ops, after.ops, spawnId) && after.spawnFailures == s.spawnFailures
                && OnlyStatus(s.tree, after.tree, child, status)
                && after.accounting ==
                     (if status.Failed? then F.Record(s.accounting, child, false, c.positions) else s.accounting)
  {
    hide LeaveSpawn, AgentTree.Update, AgentTree.Consistent, SubagentOperations.Consistent, SpawnEnded, OnlyStatus,
         AgentTree.TransitionAllowed, F.Record;
    if AfterComplete(c, s, spawnId, named, childStatus, outcome).1.Done? {
      var child := s.ops.spawns.entries[spawnId].child;
      var status := if Or(childStatus, outcome).Some? then Or(childStatus, outcome).value else AgentTree.Completed;
      LeavingEndsSpawn(s.ops, spawnId);
      UpdateIsOnlyStatus(s.tree, child, status);
    }
  }

  lemma FailureIsCounted(a: F.Accounting, child: Id, recovered: bool, positions: F.Positions)
    requires F.Sound(a, positions)
    ensures var after := F.Record(a, child, recovered, positions);
            && (child in after.failures || F.Has(a.bits, F.FailureOf(child), positions))
            && (recovered ==> child in after.recoveries || F.Has(a.bits, F.RecoveryOf(child), positions))
            && (!recovered ==> after.recoveries == a.recoveries)
  {
  }

  /** A launch failure is accepted exactly for an active spawn whose own child is still
      starting; it ends the spawn, fails the child and counts a launch failure, but no child
      failure. */
  lemma LaunchFailureTakesEffect(c: Context, s: Session, spawnId: Id, named: Option<Id>)
    requires Sound(c, s)
    ensures var result := AfterFail(s, spawnId, named);
            if spawnId !in s.ops.spawns.entries then result == (s, Refused(SpawnNotFound))
            else
              var child := s.ops.spawns.entries[spawnId].child;
              if named.Some? && named.value != child then result == (s, Refused(ChildMismatch))
              else if child !in s.tree.entries || !s.tree.entries[child].status.Starting?
              then result == (s, Refused(InvalidTransition))
              else
                var after := result.0;
                && result.1.Done? && SpawnEnded(s.ops, after.ops, spawnId)
                && OnlyStatus(s.tree, after.tree, child, AgentTree.Failed)
                && after.accounting == s.accounting && after.spawnFailures == s.spawnFailures + 1
  {
    hide LeaveSpawn, AgentTree.Update, AgentTree.Consistent, SubagentOperations.Consistent, SpawnEnded, OnlyStatus;
    if AfterFail(s, spawnId, named).1.Done? {
      LeavingEndsSpawn(s.ops, spawnId);
      UpdateIsOnlyStatus(s.tree, s.ops.spawns.entries[spawnId].child, AgentTree.Failed);
    }
  }

  /** Completing a launch is accepted for an active spawn and its own child, of which it need
      only be true the first time that the child is starting: it then records the duration, marks
      the spawn as launched and activates the child. Later it changes nothing. */
  lemma LaunchTakesEffect(c: Context, s: Session, spawnId: Id, named: Option<Id>)
    requires Sound(c, s)
    ensures var result := AfterLaunch(s, spawnId, named);
            if spawnId !in s.ops.spawns.entries then result == (s, Refused(SpawnNotFound))
            else
              var spawn := s.ops.spawns.entries[spawnId];
              if named.Some? && named.value != spawn.child then result == (s, Refused(ChildMismatch))
              else if spawn.launcherCompleted then result == (s, Done)
              else if spawn.child !in s.tree.entries || !s.tree.entries[spawn.child].status.Starting?
              then result == (s, Refused(InvalidTransition))
              else
                var after := result.0;
                && result.1.Done? && after.accounting == s.accounting && after.spawnFailures == s.spawnFailures
                && after.ops == s.ops.(durations := s.ops.durations + [spawn.span], spawns := after.ops.spawns)
                && after.ops.spawns.entries == s.ops.spawns.entries[spawnId := Spawn(spawn.span, spawn.child, true)]
                && after.ops.spawns.order == s.ops.spawns.order
                && OnlyStatus(s.tree, after.tree, spawn.child, AgentTree.Active)
  {
    hide AgentTree.Update, AgentTree.Consistent, OnlyStatus, Valid, Tracked, Counted, Timed, DistinctChildren;
    if AfterLaunch(s, spawnId, named).1.Done? && !s.ops.spawns.entries[spawnId].launcherCompleted {
      UpdateIsOnlyStatus(s.tree, s.ops.spawns.entries[spawnId].child, AgentTree.Active);
    }
  }

  /** Completing a launch twice is the same as once: the first time records the duration and
      activates the child, the second changes nothing. */
  lemma LaunchCompletesOnce(c: Context, s: Session, spawnId: Id, named: Option<Id>)
    requires Sound(c, s) && AfterLaunch(s, spawnId, named).1.Done?
    ensures var after := AfterLaunch(s, spawnId, named).0;
            && AfterLaunch(after, spawnId, named) == (after, Done)
            && after.ops.log == s.ops.log && after.ops.spawns.entries.Keys == s.ops.spawns.entries.Keys
            && after.ops.spawns.entries[spawnId].span in after.ops.durations
            && (!s.ops.spawns.entries[spawnId].launcherCompleted ==>
                  OnlyStatus(s.tree, after.tree, s.ops.spawns.entries[spawnId].child, AgentTree.Active))
  {
    hide AgentTree.Update, AgentTree.Consistent, OnlyStatus;
    RecordDurationKeeps(s.ops, spawnId);
    OthersAfterRecordDuration(s.ops, spawnId);
    if !s.ops.spawns.entries[spawnId].launcherCompleted {
      UpdateIsOnlyStatus(s.tree, s.ops.spawns.entries[spawnId].child, AgentTree.Active);
    }
  }

  /** The end of a wait or join is accepted exactly if one is filed under the identifier, the
      caller names nothing that was filed otherwise, and neither is the child another's than that
      of the spawn nor its status moved backward. A status, join status or propagation flag that
      is given is the one that takes effect, and otherwise the one filed; child and spawn are the
      filed ones. The call then closes its own span and no other, leaves all spawns alone and
      moves only its child; only a join of a failed child is accounted, and as recovered only if
      the failure was handled and the join completed. */
  lemma EndOfWaitJoinTakesEffect(c: Context, s: Session, kind: Kind, id: Id, named: Option<Id>, given: Options)
    requires Sound(c, s)
    ensures var result := AfterEndWaitJoin(c, s, kind, id, named, given);
            if id !in Registry(s.ops, kind).entries then result == (s, Refused(NotFound(kind)))
            else
              var w := Registry(s.ops, kind).entries[id];
              var filed := w.options;
              var status := if given.childStatus.Some? then given.childStatus else filed.childStatus;
              var joined := if given.joinStatus.Some? then given.joinStatus else filed.joinStatus;
              var propagated :=
                if given.failurePropagated.Some? then given.failurePropagated else filed.failurePropagated;
              var others :=
                || (named.Some? && named.value != id)
                || (given.spawnId.Some? && given.spawnId != filed.spawnId)
                || (given.child.Some? && given.child != filed.child)
                || (filed.child.Some? && status.Some? && filed.spawnId.Some?
                    && filed.spawnId.value in s.ops.spawns.entries
                    && s.ops.spawns.entries[filed.spawnId.value].child != filed.child.value);
              var backward :=
                && filed.child.Some? && status.Some? && filed.child.value in s.tree.entries
                && !AgentTree.TransitionAllowed(s.tree.entries[filed.child.value].status, status.value);
              var recovered := propagated == Some(false) && joined == Some(JoinCompleted);
              if others then result == (s, Refused(ChildMismatch))
              else if backward then result == (s, Refused(InvalidTransition))
              else
                var after := result.0;
                && result.1.Done? && after.spawnFailures == s.spawnFailures
                && ClosedOne(s.ops, after.ops, w.span) && after.ops.spawns == s.ops.spawns
                && after.ops.durations == s.ops.durations
                && Registry(after.ops, kind).entries == Registry(s.ops, kind).entries - {id}
                && (forall other: Kind | other != kind :: Registry(after.ops, other) == Registry(s.ops, other))
                && (if filed.child.Some? && status.Some? && filed.child.value in s.tree.entries then
                      OnlyStatus(s.tree, after.tree, filed.child.value, status.value)
                    else after.tree == s.tree)
                && (if kind.Join? && filed.child.Some? && status == Some(AgentTree.Failed) then
                      after.accounting == F.Record(s.accounting, filed.child.value, recovered, c.positions)
                    else after.accounting == s.accounting)
  {
    hide AgentTree.Update, AgentTree.Consistent, SubagentOperations.Consistent, ClosedOne, OnlyStatus, F.Sound,
         F.Record, Delete, LeaveWaitJoin, AgentTree.TransitionAllowed;
    if id in Registry(s.ops, kind).entries {
      var w := Registry(s.ops, kind).entries[id];
      FiledUnderItself(c, s, kind, id);
      LeaveWaitJoinCloses(s.ops, kind, id);
      var status := if given.childStatus.Some? then given.childStatus else w.options.childStatus;
      if w.options.child.Some? && status.Some? {
        UpdateEffect(s.tree, w.options.child.value, status.value);
      }
    }
  }

  /** An update changes nothing where the agent is not retained, and one status if allowed. */
  lemma UpdateEffect(t: AgentTree.Tree, agent: Id, status: Status)
    requires AgentTree.Consistent(t)
    ensures agent !in t.entries ==> AgentTree.Update(t, agent, status) == t
    ensures agent in t.entries && AgentTree.TransitionAllowed(t.entries[agent].status, status) ==>
              OnlyStatus(t, AgentTree.Update(t, agent, status), agent, status)
  {
    if AgentTree.Accepts(t, agent, status) {
      UpdateIsOnlyStatus(t, agent, status);
    }
  }

  lemma FiledUnderItself(c: Context, s: Session, kind: Kind, id: Id)
    requires Sound(c, s) && id in Registry(s.ops, kind).entries
    ensures Registry(s.ops, kind).entries[id].id == id && Registry(s.ops, kind).entries[id].kind == kind
  {
  }

  lemma LeaveWaitJoinCloses(o: Operations, kind: Kind, id: Id)
    requires SubagentOperations.Consistent(o) && id in Registry(o, kind).entries
    ensures var after := LeaveWaitJoin(o, kind, id);
            && ClosedOne(o, after, Registry(o, kind).entries[id].span) && after.spawns == o.spawns
            && after.durations == o.durations
            && Registry(after, kind).entries == Registry(o, kind).entries - {id}
            && forall other: Kind | other != kind :: Registry(after, other) == Registry(o, other)
  {
    hide Delete, Valid;
    DeleteKeeps(Registry(o, kind), id);
    SlotOfWaitJoin(o, kind, id);
  }

  lemma {:induction false} CancelledSpawnsEnd(c: Context, s: Session, ids: seq<Id>)
    requires Sound(c, s)
    ensures var after := CancelSpawns(c, s, ids);
            && s.ops.log.ended <= after.ops.log.ended && after.ops.log.evicted == s.ops.log.evicted
            && forall id | id in s.ops.spawns.entries && id in ids ::
                 s.ops.spawns.entries[id].span in after.ops.log.ended
    decreases |ids|
  {
    hide Sound, LeaveSpawn, AgentTree.Update, F.Record;
    if ids != [] {
      assert ids == [ids[0]] + ids[1..];
      if ids[0] in s.ops.spawns.entries {
        var next := Terminal(c, s, ids[0], AgentTree.Cancelled);
        TerminalKeeps(c, s, ids[0], AgentTree.Cancelled);
        SoundIsConsistent(c, s);
        LeaveSpawnCloses(s.ops, ids[0]);
        OthersAfterLeave(s.ops, ids[0]);
        CancelledSpawnsEnd(c, next, ids[1..]);
        var after, n := CancelSpawns(c, s, ids), |s.ops.log.ended|;
        assert after.ops.log.ended[n] == next.ops.log.ended[n] == s.ops.spawns.entries[ids[0]].span;
        assert forall id | id in s.ops.spawns.entries && id != ids[0] :: id in next.ops.spawns.entries;
      } else {
        CancelledSpawnsEnd(c, s, ids[1..]);
      }
    }
  }

  lemma SoundIsConsistent(c: Context, s: Session)
    requires Sound(c, s)
    ensures SubagentOperations.Consistent(s.ops) && Registered(s.ops)
  {
  }

  lemma {:induction false} CancelledWaitJoinsEnd(c: Context, s: Session, kind: Kind, ids: seq<Id>)
    requires Sound(c, s)
    ensures var after := CancelWaitJoins(c, s, kind, ids);
            && s.ops.log.ended <= after.ops.log.ended && after.ops.log.evicted == s.ops.log.evicted
            && after.accounting.recoveries == s.accounting.recoveries
    decreases |ids|
  {
    hide Sound, AgentTree.Update;
    if ids != [] {
      var next := CancelWaitJoin(c, s, kind, ids[0]);
      CancelWaitJoinKeeps(c, s, kind, ids[0]);
      CancelledWaitJoinEnds(c, s, kind, ids[0]);
      CancelledWaitJoinsEnd(c, next, kind, ids[1..]);
    }
  }

  /** A cancelled wait or join ends in the ordinary way and confirms no recovery. */
  lemma CancelledWaitJoinEnds(c: Context, s: Session, kind: Kind, id: Id)
    requires Sound(c, s)
    ensures s.ops.log.ended <= CancelWaitJoin(c, s, kind, id).ops.log.ended
    ensures CancelWaitJoin(c, s, kind, id).ops.log.evicted == s.ops.log.evicted
    ensures CancelWaitJoin(c, s, kind, id).accounting.recoveries == s.accounting.recoveries
  {
    hide AgentTree.Update, AgentTree.Consistent, F.Record, LeaveWaitJoin;
    if id in Registry(s.ops, kind).entries {
      LeaveWaitJoinCloses(s.ops, kind, id);
      var filed := Registry(s.ops, kind).entries[id].options;
      var given := Options(None, None, Some(InterruptedStatus(s, filed.child)), Some(JoinCancelled), None);
      assert Resolved(filed, given).joinStatus == Some(JoinCancelled);
      if filed.child.Some? {
        FailureIsCounted(s.accounting, filed.child.value, false, c.positions);
      }
    }
  }

  /** Main result: every spawn that interruption finds active ends, not by eviction, with
      exactly one duration, and no recovery is counted. */
  lemma InterruptedSpawnsEnd(c: Context, s: Session)
    requires Sound(c, s)
    ensures var after := AfterInterrupt(c, s);
            && after.ops.log.evicted == s.ops.log.evicted && s.ops.log.ended <= after.ops.log.ended
            && Distinct(after.ops.durations) && after.accounting.recoveries == s.accounting.recoveries
            && forall id | id in s.ops.spawns.entries ::
                 && s.ops.spawns.entries[id].span in after.ops.log.ended
                 && s.ops.spawns.entries[id].span in after.ops.durations
  {
    hide CancelSpawns, CancelWaitJoins, AgentTree.Consistent, F.Sound;
    var withoutSpawns := CancelSpawns(c, s, s.ops.spawns.order);
    ListedKeys(s.ops.spawns);
    CancelSpawnsKeeps(c, s, s.ops.spawns.order);
    CancelledSpawnsEnd(c, s, s.ops.spawns.order);
    CancelledSpawnsAccount(c, s, s.ops.spawns.order);
    var withoutWaits := CancelWaitJoins(c, withoutSpawns, Wait, withoutSpawns.ops.waits.order);
    ListedKeys(withoutSpawns.ops.waits);
    CancelWaitJoinsKeeps(c, withoutSpawns, Wait, withoutSpawns.ops.waits.order);
    CancelledWaitJoinsEnd(c, withoutSpawns, Wait, withoutSpawns.ops.waits.order);
    ListedKeys(withoutWaits.ops.joins);
    CancelWaitJoinsKeeps(c, withoutWaits, Join, withoutWaits.ops.joins.order);
    CancelledWaitJoinsEnd(c, withoutWaits, Join, withoutWaits.ops.joins.order);
    var after := AfterInterrupt(c, s);
    forall id | id in s.ops.spawns.entries
      ensures s.ops.spawns.entries[id].span in after.ops.log.ended
      ensures s.ops.spawns.entries[id].span in after.ops.durations
    {
      var span := s.ops.spawns.entries[id].span;
      assert InSlot(s.ops, SpawnSlot(id)) == Some(span);
      assert span in s.ops.log.active && span !in s.ops.log.evicted;
      assert span in withoutSpawns.ops.log.ended;
    }
  }

  lemma {:induction false} CancelledSpawnsAccount(c: Context, s: Session, ids: seq<Id>)
    ensures CancelSpawns(c, s, ids).accounting == s.accounting
    decreases |ids|
  {
    hide LeaveSpawn, AgentTree.Update;
    if ids != [] {
      if ids[0] in s.ops.spawns.entries {
        CancelledSpawnsAccount(c, Terminal(c, s, ids[0], AgentTree.Cancelled), ids[1..]);
      } else {
        CancelledSpawnsAccount(c, s, ids[1..]);
      }
    }
  }

  // ----- what interruption does to the children -----

  /** The given agents that had not ended are cancelled, and no other status changes. */
  ghost predicate Cancels(before: AgentTree.Tree, after: AgentTree.Tree, agents: set<Id>) {
    && after.entries.Keys == before.entries.Keys
    && forall id | id in before.entries ::
         after.entries[id].status ==
         if id in agents && (before.entries[id].status.Starting? || before.entries[id].status.Active?)
         then AgentTree.Cancelled
         else before.entries[id].status
  }

  lemma CancelsThen(a: AgentTree.Tree, b: AgentTree.Tree, c: AgentTree.Tree, first: set<Id>, second: set<Id>)
    requires Cancels(a, b, first) && Cancels(b, c, second)
    ensures Cancels(a, c, first + second)
  {
  }

  lemma UpdateCancels(t: AgentTree.Tree, agent: Id, status: Status)
    requires AgentTree.Consistent(t)
    requires status ==
             if agent in t.entries && !t.entries[agent].status.Starting? && !t.entries[agent].status.Active?
             then t.entries[agent].status else AgentTree.Cancelled
    ensures Cancels(t, AgentTree.Update(t, agent, status), {agent})
  {
    UpdateEffect(t, agent, status);
  }

  lemma UpdateToCancelled(t: AgentTree.Tree, agent: Id)
    requires AgentTree.Consistent(t)
    ensures Cancels(t, AgentTree.Update(t, agent, AgentTree.Cancelled), {agent})
  {
    AgentTree.UpdateKeeps(t, agent, AgentTree.Cancelled);
    if AgentTree.Accepts(t, agent, AgentTree.Cancelled) {
      UpdateIsOnlyStatus(t, agent, AgentTree.Cancelled);
    }
  }

  ghost function SpawnChildren(o: Operations, ids: seq<Id>): set<Id> {
    set i | i in o.spawns.entries && i in ids :: o.spawns.entries[i].child
  }

  lemma SpawnChildrenLeft(o: Operations, ids: seq<Id>)
    requires SubagentOperations.Consistent(o) && ids != [] && ids[0] in o.spawns.entries
    ensures SpawnChildren(o, ids) ==
            {o.spawns.entries[ids[0]].child} + SpawnChildren(LeaveSpawn(o, ids[0]), ids[1..])
  {
    hide LeaveSpawn, SubagentOperations.Consistent, ClosedOne;
    LeavingEndsSpawn(o, ids[0]);
    assert ids == [ids[0]] + ids[1..];
    var left := LeaveSpawn(o, ids[0]);
    forall x | x in SpawnChildren(o, ids)
      ensures x == o.spawns.entries[ids[0]].child || x in SpawnChildren(left, ids[1..])
    {
      var i :| i in o.spawns.entries && i in ids && o.spawns.entries[i].child == x;
      assert i == ids[0] || i in left.spawns.entries;
    }
  }

  lemma {:induction false} CancelledSpawnChildren(c: Context, s: Session, ids: seq<Id>)
    requires Sound(c, s)
    ensures Cancels(s.tree, CancelSpawns(c, s, ids).tree, SpawnChildren(s.ops, ids))
    ensures CancelSpawns(c, s, ids).ops.waits == s.ops.waits && CancelSpawns(c, s, ids).ops.joins == s.ops.joins
    decreases |ids|
  {
    hide SubagentOperations.Consistent, AgentTree.Consistent, F.Sound, LeaveSpawn, AgentTree.Update, F.Record, Cancels,
         SpawnChildren, ClosedOne;
    if ids == [] {
      NothingCancelled(s);
    } else if ids[0] in s.ops.spawns.entries {
      var child := s.ops.spawns.entries[ids[0]].child;
      var next := Terminal(c, s, ids[0], AgentTree.Cancelled);
      TerminalKeeps(c, s, ids[0], AgentTree.Cancelled);
      LeavingEndsSpawn(s.ops, ids[0]);
      UpdateToCancelled(s.tree, child);
      CancelledSpawnChildren(c, next, ids[1..]);
      CancelsThen(s.tree, next.tree, CancelSpawns(c, s, ids).tree, {child}, SpawnChildren(next.ops, ids[1..]));
      SpawnChildrenLeft(s.ops, ids);
    } else {
      CancelledSpawnChildren(c, s, ids[1..]);
      SpawnChildrenSkip(s.ops, ids);
    }
  }

  lemma NothingCancelled(s: Session)
    ensures Cancels(s.tree, s.tree, {}) && SpawnChildren(s.ops, []) == {}
    ensures forall kind: Kind :: WaitJoinChildren(s.ops, kind, []) == {}
  {
  }

  lemma SpawnChildrenSkip(o: Operations, ids: seq<Id>)
    requires ids != [] && ids[0] !in o.spawns.entries
    ensures SpawnChildren(o, ids) == SpawnChildren(o, ids[1..])
  {
    assert ids == [ids[0]] + ids[1..];
    forall i | i in o.spawns.entries ensures i in ids <==> i in ids[1..] {
    }
  }

  ghost function WaitJoinChildren(o: Operations, kind: Kind, ids: seq<Id>): set<Id> {
    set i | i in Registry(o, kind).entries && i in ids && Registry(o, kind).entries[i].options.child.Some? ::
      Registry(o, kind).entries[i].options.child.value
  }

  ghost function ChildOf(o: Operations, kind: Kind, id: Id): set<Id> {
    if id in Registry(o, kind).entries && Registry(o, kind).entries[id].options.child.Some?
    then {Registry(o, kind).entries[id].options.child.value} else {}
  }

  lemma CancelledWaitJoinChild(c: Context, s: Session, kind: Kind, id: Id)
    requires Sound(c, s)
    ensures Cancels(s.tree, CancelWaitJoin(c, s, kind, id).tree, ChildOf(s.ops, kind, id))
  {
    hide SubagentOperations.Consistent, AgentTree.Consistent, F.Sound, LeaveWaitJoin, AgentTree.Update, F.Record,
         Cancels;
    NothingCancelled(s);
    if id in Registry(s.ops, kind).entries {
      var child := Registry(s.ops, kind).entries[id].options.child;
      if child.Some? {
        UpdateCancels(s.tree, child.value, InterruptedStatus(s, child));
      }
    }
  }

  lemma WaitJoinChildrenLeft(o: Operations, after: Operations, kind: Kind, ids: seq<Id>)
    requires ids != [] && Registry(after, kind).entries == Registry(o, kind).entries - {ids[0]}
    ensures WaitJoinChildren(o, kind, ids) == ChildOf(o, kind, ids[0]) + WaitJoinChildren(after, kind, ids[1..])
  {
    assert ids == [ids[0]] + ids[1..];
    var e := Registry(o, kind).entries;
    forall x | x in WaitJoinChildren(o, kind, ids)
      ensures x in ChildOf(o, kind, ids[0]) || x in WaitJoinChildren(after, kind, ids[1..])
    {
      var i :| i in e && i in ids && e[i].options.child.Some? && e[i].options.child.value == x;
      assert i == ids[0] || i in Registry(after, kind).entries;
    }
  }

  lemma {:induction false} CancelledWaitJoinChildren(c: Context, s: Session, kind: Kind, ids: seq<Id>)
    requires Sound(c, s)
    ensures Cancels(s.tree, CancelWaitJoins(c, s, kind, ids).tree, WaitJoinChildren(s.ops, kind, ids))
    decreases |ids|
  {
    hide Sound, CancelWaitJoin, Cancels, WaitJoinChildren, ChildOf;
    if ids == [] {
      NothingCancelled(s);
    } else {
      var next := CancelWaitJoin(c, s, kind, ids[0]);
      CancelWaitJoinKeepsNodes(c, s, kind, ids[0]);
      CancelWaitJoinEntries(c, s, kind, ids[0]);
      CancelledWaitJoinChild(c, s, kind, ids[0]);
      CancelledWaitJoinChildren(c, next, kind, ids[1..]);
      WaitJoinChildrenLeft(s.ops, next.ops, kind, ids);
      CancelsThen(s.tree, next.tree, CancelWaitJoins(c, s, kind, ids).tree, ChildOf(s.ops, kind, ids[0]),
                  WaitJoinChildren(next.ops, kind, ids[1..]));
    }
  }

  lemma CancelWaitJoinEntries(c: Context, s: Session, kind: Kind, id: Id)
    requires Sound(c, s)
    ensures Registry(CancelWaitJoin(c, s, kind, id).ops, kind).entries == Registry(s.ops, kind).entries - {id}
  {
    hide SubagentOperations.Consistent, AgentTree.Consistent, F.Sound, LeaveWaitJoin, AgentTree.Update, F.Record;
    if id in Registry(s.ops, kind).entries {
      LeaveWaitJoinCloses(s.ops, kind, id);
    }
  }

  /** The children of active spawns and of the waits and joins filed. */
  ghost function Watched(s: Session): set<Id> {
    SpawnChildren(s.ops, s.ops.spawns.order) + WaitJoinChildren(s.ops, Wait, s.ops.waits.order)
    + WaitJoinChildren(s.ops, Join, s.ops.joins.order)
  }

  lemma WatchedIs(c: Context, s: Session, id: Id)
    requires Sound(c, s)
    ensures id in Watched(s) <==>
            || (exists i :: i in s.ops.spawns.entries && s.ops.spawns.entries[i].child == id)
            || (exists i :: i in s.ops.waits.entries && s.ops.waits.entries[i].options.child == Some(id))
            || (exists i :: i in s.ops.joins.entries && s.ops.joins.entries[i].options.child == Some(id))
  {
    hide AgentTree.Consistent, F.Sound, Tracked, Counted, Timed, DistinctChildren;
    assert Registry(s.ops, Wait) == s.ops.waits && Registry(s.ops, Join) == s.ops.joins;
    if i :| i in s.ops.waits.entries && s.ops.waits.entries[i].options.child == Some(id) {
      assert id in WaitJoinChildren(s.ops, Wait, s.ops.waits.order);
    }
    if i :| i in s.ops.joins.entries && s.ops.joins.entries[i].options.child == Some(id) {
      assert id in WaitJoinChildren(s.ops, Join, s.ops.joins.order);
    }
    if i :| i in s.ops.spawns.entries && s.ops.spawns.entries[i].child == id {
      assert id in SpawnChildren(s.ops, s.ops.spawns.order);
    }
  }

  /** Main result: interruption cancels exactly the agents that are the child of an active spawn
      or of a wait or join filed and that have not ended; every other status stays. */
  lemma InterruptionCancelsExactly(c: Context, s: Session)
    requires Sound(c, s)
    ensures AfterInterrupt(c, s).tree.entries.Keys == s.tree.entries.Keys
    ensures forall id | id in s.tree.entries ::
              AfterInterrupt(c, s).tree.entries[id].status ==
              if (s.tree.entries[id].status.Starting? || s.tree.entries[id].status.Active?)
                 && ((exists i :: i in s.ops.spawns.entries && s.ops.spawns.entries[i].child == id)
                     || (exists i :: i in s.ops.waits.entries && s.ops.waits.entries[i].options.child == Some(id))
                     || (exists i :: i in s.ops.joins.entries && s.ops.joins.entries[i].options.child == Some(id)))
              then AgentTree.Cancelled
              else s.tree.entries[id].status
  {
    InterruptionCancelsWatched(c, s);
    forall id | id in s.tree.entries ensures id in Watched(s) <==>
            || (exists i :: i in s.ops.spawns.entries && s.ops.spawns.entries[i].child == id)
            || (exists i :: i in s.ops.waits.entries && s.ops.waits.entries[i].options.child == Some(id))
            || (exists i :: i in s.ops.joins.entries && s.ops.joins.entries[i].options.child == Some(id))
    {
      WatchedIs(c, s, id);
    }
    hide AfterInterrupt, Watched, Sound;
  }

  lemma InterruptionCancelsWatched(c: Context, s: Session)
    requires Sound(c, s)
    ensures Cancels(s.tree, AfterInterrupt(c, s).tree, Watched(s))
  {
    hide Sound, CancelSpawns, CancelWaitJoins, Cancels, SpawnChildren, WaitJoinChildren;
    CancelSpawnsKeepNodes(c, s, s.ops.spawns.order);
    CancelledSpawnChildren(c, s, s.ops.spawns.order);
    var withoutSpawns := CancelSpawns(c, s, s.ops.spawns.order);
    SameRegistryChildren(s.ops, withoutSpawns.ops, Wait, withoutSpawns.ops.waits.order);
    CancelWaitJoinsKeepNodes(c, withoutSpawns, Wait, withoutSpawns.ops.waits.order);
    CancelledWaitJoinChildren(c, withoutSpawns, Wait, withoutSpawns.ops.waits.order);
    var withoutWaits := CancelWaitJoins(c, withoutSpawns, Wait, withoutSpawns.ops.waits.order);
    WaitsLeaveJoins(c, withoutSpawns, withoutSpawns.ops.waits.order);
    SameRegistryChildren(s.ops, withoutWaits.ops, Join, withoutWaits.ops.joins.order);
    CancelledWaitJoinChildren(c, withoutWaits, Join, withoutWaits.ops.joins.order);
    var spawned := SpawnChildren(s.ops, s.ops.spawns.order);
    var waited := WaitJoinChildren(s.ops, Wait, s.ops.waits.order);
    CancelsThen(s.tree, withoutSpawns.tree, withoutWaits.tree, spawned, waited);
    CancelsThen(s.tree, withoutWaits.tree, AfterInterrupt(c, s).tree, spawned + waited,
                WaitJoinChildren(s.ops, Join, s.ops.joins.order));
  }

  lemma SameRegistryChildren(o: Operations, after: Operations, kind: Kind, ids: seq<Id>)
    requires Registry(o, kind) == Registry(after, kind)
    ensures WaitJoinChildren(o, kind, ids) == WaitJoinChildren(after, kind, ids)
  {
  }

  lemma {:induction false} WaitsLeaveJoins(c: Context, s: Session, ids: seq<Id>)
    requires Sound(c, s)
    ensures CancelWaitJoins(c, s, Wait, ids).ops.joins == s.ops.joins
    decreases |ids|
  {
    hide Sound, CancelWaitJoin;
    if ids != [] {
      var next := CancelWaitJoin(c, s, Wait, ids[0]);
      CancelWaitJoinKeeps(c, s, Wait, ids[0]);
      assert Registry(next.ops, Join) == Registry(s.ops, Join);
      WaitsLeaveJoins(c, next, ids[1..]);
    }
  }

  // ----- a spawn that can no longer be completed -----

  /** The tree has evicted the child of a spawn that is still active. */
  ghost predicate Stranded(s: Session, spawnId: Id, span: Span) {
    && spawnId in s.ops.spawns.entries && s.ops.spawns.entries[spawnId].span == span
    && s.ops.spawns.entries[spawnId].child !in s.tree.entries
  }

  lemma ConsistentIsRegistered(o: Operations)
    requires SubagentOperations.Consistent(o)
    ensures Registered(o)
  {
  }

  lemma OthersAfterRecordDuration(o: Operations, id: Id)
    requires Registered(o) && id in o.spawns.entries
    ensures RecordDuration(o, id).spawns.entries.Keys == o.spawns.entries.Keys && RecordDuration(o, id).log == o.log
    ensures forall other | other in o.spawns.entries ::
              RecordDuration(o, id).spawns.entries[other].span == o.spawns.entries[other].span &&
              RecordDuration(o, id).spawns.entries[other].child == o.spawns.entries[other].child
  {
    PutKeeps(o.spawns, id, o.spawns.entries[id].(launcherCompleted := true));
  }

  lemma OthersAfterLeave(o: Operations, id: Id)
    requires SubagentOperations.Consistent(o) && id in o.spawns.entries
    ensures forall other | other in o.spawns.entries && other != id ::
              && other in LeaveSpawn(o, id).spawns.entries
              && LeaveSpawn(o, id).spawns.entries[other].span == o.spawns.entries[other].span
              && LeaveSpawn(o, id).spawns.entries[other].child == o.spawns.entries[other].child
    ensures LeaveSpawn(o, id).log.evicted == o.log.evicted
  {
    hide Put, Delete;
    RecordDurationKeeps(o, id);
    OthersAfterRecordDuration(o, id);
    DeleteKeeps(RecordDuration(o, id).spawns, id);
  }

  lemma StartStrands(c: Context, s: Session, started: Id, child: Id, spawnId: Id, span: Span)
    requires Sound(c, s) && Stranded(s, spawnId, span)
    ensures var after := AfterStart(c, s, started, child).0;
            && s.ops.log.evicted <= after.ops.log.evicted
            && (Stranded(after, spawnId, span) || span in after.ops.log.evicted)
  {
    hide AgentTree.Consistent, F.Sound, AgentTree.Register, Tracked, Put, EvictedBy;
    if AfterStart(c, s, started, child).1.Done? {
      AgentTree.RegisterKeeps(s.tree, ChildLineage(c.self, child), AgentTree.Starting);
      PutKeeps(s.ops.spawns, started, Spawn(Span(s.ops.log.next, SpawnSlot(started)), child, false));
    }
  }

  lemma StaysStranded(c: Context, s: Session, e: Event, spawnId: Id, span: Span)
    requires Sound(c, s) && Stranded(s, spawnId, span) && !e.Interrupt?
    ensures var after := Step(c, s, e).0;
            Stranded(after, spawnId, span) || span in after.ops.log.evicted
  {
    hide SubagentOperations.Consistent, AgentTree.Consistent, F.Sound, AfterStart, AgentTree.Update, RecordDuration,
        LeaveSpawn;
    match e
    case StartSpawn(started, child) => StartStrands(c, s, started, child, spawnId, span);
    case CompleteLaunch(id, named) =>
      if id in s.ops.spawns.entries {
        ConsistentIsRegistered(s.ops);
        OthersAfterRecordDuration(s.ops, id);
        AgentTree.UpdateKeeps(s.tree, s.ops.spawns.entries[id].child, AgentTree.Active);
      }
    case CompleteSpawn(id, named, childStatus, outcome) =>
      if id in s.ops.spawns.entries {
        OthersAfterLeave(s.ops, id);
        var status := if Or(childStatus, outcome).Some? then Or(childStatus, outcome).value else AgentTree.Completed;
        AgentTree.UpdateKeeps(s.tree, s.ops.spawns.entries[id].child, status);
      }
    case FailSpawn(id, named) =>
      if id in s.ops.spawns.entries {
        OthersAfterLeave(s.ops, id);
        AgentTree.UpdateKeeps(s.tree, s.ops.spawns.entries[id].child, AgentTree.Failed);
      }
    case StartWaitJoin(kind, id, options) =>
      if options.child.Some? {
        AgentTree.UpdateKeeps(s.tree, options.child.value, AgentTree.Active);
      }
    case EndWaitJoin(kind, id, named, options) =>
      if id in Registry(s.ops, kind).entries {
        var o := Resolved(Registry(s.ops, kind).entries[id].options, options);
        if o.child.Some? && o.childStatus.Some? {
          AgentTree.UpdateKeeps(s.tree, o.child.value, o.childStatus.value);
        }
      }
  }

  lemma EvictedStays(c: Context, s: Session, e: Event)
    requires !e.Interrupt?
    ensures s.ops.log.evicted <= Step(c, s, e).0.ops.log.evicted
  {
    hide Put, Delete, AgentTree.Update, AgentTree.Register, F.Record;
  }

  lemma {:induction false} EvictedStaysThroughout(c: Context, s: Session, events: seq<Event>)
    requires forall e | e in events :: !e.Interrupt?
    ensures s.ops.log.evicted <= Run(c, s, events).ops.log.evicted
    decreases |events|
  {
    hide Step;
    if events != [] {
      EvictedStays(c, s, events[0]);
      EvictedStaysThroughout(c, Step(c, s, events[0]).0, events[1..]);
    }
  }

  /** Main result: a spawn whose child the tree has evicted can be neither completed nor
      failed by any sequence of calls; it stays open until the registry evicts it (or the
      session is interrupted). */
  lemma {:induction false} StrandedForGood(c: Context, s: Session, events: seq<Event>, spawnId: Id, span: Span)
    requires Sound(c, s)
    requires Stranded(s, spawnId, span) && forall e | e in events :: !e.Interrupt?
    ensures var after := Run(c, s, events);
            Stranded(after, spawnId, span) || span in after.ops.log.evicted
    decreases |events|
  {
    hide Sound, Step, Stranded;
    if events != [] {
      var next := Step(c, s, events[0]).0;
      StepKeeps(c, s, events[0]);
      StaysStranded(c, s, events[0], spawnId, span);
      if Stranded(next, spawnId, span) {
        StrandedForGood(c, next, events[1..], spawnId, span);
      } else {
        EvictedStaysThroughout(c, next, events[1..]);
      }
    }
  }

  // ----- which call strands a spawn -----

  /** The active spawn's child is retained in the tree. */
  predicate HasChild(s: Session, spawnId: Id) {
    spawnId in s.ops.spawns.entries && s.ops.spawns.entries[spawnId].child in s.tree.entries
  }

  /** An accepted start on a full tree whose oldest node, a retained own node of the session
      apart, is the spawn's child. */
  predicate Strands(c: Context, s: Session, e: Event, spawnId: Id)
    requires spawnId in s.ops.spawns.entries
  {
    && e.StartSpawn? && AfterStart(c, s, e.spawnId, e.child).1.Done? && |s.tree.order| == s.tree.maxSize
    && AgentTree.NextOut(s.tree, c.self.agentId) == Some(s.ops.spawns.entries[spawnId].child)
  }

  /** The tree keeps its nodes, and a spawn that stays active keeps its child. */
  ghost predicate SameChildren(s: Session, after: Session) {
    && after.tree.entries.Keys == s.tree.entries.Keys
    && forall id | id in after.ops.spawns.entries ::
         id in s.ops.spawns.entries && after.ops.spawns.entries[id].child == s.ops.spawns.entries[id].child
  }

  lemma LeavingKeepsChildren(c: Context, s: Session, id: Id, status: Status, after: Session)
    requires Sound(c, s) && id in s.ops.spawns.entries
    requires after.ops == LeaveSpawn(s.ops, id)
    requires after.tree == AgentTree.Update(s.tree, s.ops.spawns.entries[id].child, status)
    ensures SameChildren(s, after)
  {
    hide SubagentOperations.Consistent, AgentTree.Consistent, F.Sound, AgentTree.Update, LeaveSpawn;
    LeaveSpawnKeeps(s.ops, id);
    OthersAfterLeave(s.ops, id);
    AgentTree.UpdateKeeps(s.tree, s.ops.spawns.entries[id].child, status);
  }

  lemma LaunchKeepsChildren(c: Context, s: Session, id: Id, named: Option<Id>)
    requires Sound(c, s)
    ensures SameChildren(s, AfterLaunch(s, id, named).0)
  {
    hide SubagentOperations.Consistent, AgentTree.Consistent, F.Sound, AgentTree.Update, RecordDuration;
    if id in s.ops.spawns.entries {
      ConsistentIsRegistered(s.ops);
      OthersAfterRecordDuration(s.ops, id);
      AgentTree.UpdateKeeps(s.tree, s.ops.spawns.entries[id].child, AgentTree.Active);
    }
  }

  lemma WaitsAndJoinsKeepChildren(c: Context, s: Session, e: Event)
    requires Sound(c, s) && (e.StartWaitJoin? || e.EndWaitJoin?)
    ensures SameChildren(s, Step(c, s, e).0)
  {
    hide SubagentOperations.Consistent, AgentTree.Consistent, F.Sound, AgentTree.Update, F.Record, Put, Delete,
        EvictedBy;
    if e.StartWaitJoin? {
      if e.options.child.Some? {
        AgentTree.UpdateKeeps(s.tree, e.options.child.value, AgentTree.Active);
      }
    } else if e.id in Registry(s.ops, e.kind).entries {
      var o := Resolved(Registry(s.ops, e.kind).entries[e.id].options, e.options);
      if o.child.Some? && o.childStatus.Some? {
        AgentTree.UpdateKeeps(s.tree, o.child.value, o.childStatus.value);
      }
    }
  }

  /** Any call but a start or an interruption keeps the children of active spawns. */
  lemma OthersKeepChildren(c: Context, s: Session, e: Event)
    requires Sound(c, s) && !e.StartSpawn? && !e.Interrupt?
    ensures SameChildren(s, Step(c, s, e).0)
  {
    hide Sound, AgentTree.Update, LeaveSpawn, F.Record, AfterLaunch, AfterStartWaitJoin, AfterEndWaitJoin;
    match e
    case CompleteLaunch(id, named) => LaunchKeepsChildren(c, s, id, named);
    case CompleteSpawn(id, named, childStatus, outcome) =>
      if Step(c, s, e).1.Done? {
        var status := if Or(childStatus, outcome).Some? then Or(childStatus, outcome).value else AgentTree.Completed;
        LeavingKeepsChildren(c, s, id, status, Step(c, s, e).0);
      }
    case FailSpawn(id, named) =>
      if Step(c, s, e).1.Done? {
        LeavingKeepsChildren(c, s, id, AgentTree.Failed, Step(c, s, e).0);
      }
    case StartWaitJoin(kind, id, options) => WaitsAndJoinsKeepChildren(c, s, e);
    case EndWaitJoin(kind, id, named, options) => WaitsAndJoinsKeepChildren(c, s, e);
  }

  lemma AcceptedStart(c: Context, s: Session, spawnId: Id, child: Id)
    requires Sound(c, s) && AfterStart(c, s, spawnId, child).1.Done?
    ensures var after := AfterStart(c, s, spawnId, child).0;
            && HasChild(after, spawnId)
            && (forall id | id in after.ops.spawns.entries && id != spawnId ::
                  id in s.ops.spawns.entries && after.ops.spawns.entries[id].child == s.ops.spawns.entries[id].child)
            && forall other | other in s.tree.entries ::
                 other !in after.tree.entries <==>
                 |s.tree.order| == s.tree.maxSize && AgentTree.NextOut(s.tree, c.self.agentId) == Some(other)
  {
    hide SubagentOperations.Consistent, AgentTree.Consistent, F.Sound, AgentTree.Register, Put, EvictedBy;
    StartKeeps(c, s, spawnId, child);
    ConsistentIsRegistered(s.ops);
    PutKeeps(s.ops.spawns, spawnId, Spawn(Span(s.ops.log.next, SpawnSlot(spawnId)), child, false));
    forall other | other in s.tree.entries
      ensures other !in AfterStart(c, s, spawnId, child).0.tree.entries <==>
              |s.tree.order| == s.tree.maxSize && AgentTree.NextOut(s.tree, c.self.agentId) == Some(other)
    {
      AgentTree.NewChildEvictsExactly(s.tree, ChildLineage(c.self, child), AgentTree.Starting, other);
    }
  }

  /** Main result: a call makes an active spawn lose its child while the spawn stays active if
      and only if it is an accepted start, the tree is full, and the child is the oldest node
      other than the session's own. A caller can check that before the call. */
  lemma StrandedExactly(c: Context, s: Session, e: Event, spawnId: Id)
    requires Sound(c, s) && HasChild(s, spawnId)
    requires spawnId in Step(c, s, e).0.ops.spawns.entries
    ensures HasChild(Step(c, s, e).0, spawnId) <==> !Strands(c, s, e, spawnId)
  {
    hide Sound, Step, AfterStart, AgentTree.NextOut;
    if e.Interrupt? {
      InterruptIs(c, s);
      InterruptKeeps(c, s);
    } else if !e.StartSpawn? {
      OthersKeepChildren(c, s, e);
    } else {
      StartIs(c, s, e.spawnId, e.child);
      if AfterStart(c, s, e.spawnId, e.child).1.Done? {
        NotThereBefore(c, s, e.spawnId, e.child);
        AcceptedStart(c, s, e.spawnId, e.child);
      } else {
        RefusalsChangeNothing(c, s, e);
      }
    }
  }

  lemma StartIs(c: Context, s: Session, spawnId: Id, child: Id)
    ensures Step(c, s, StartSpawn(spawnId, child)) == AfterStart(c, s, spawnId, child)
  {
  }

  lemma InterruptIs(c: Context, s: Session)
    ensures Step(c, s, Interrupt).0 == AfterInterrupt(c, s)
  {
  }

  lemma NotThereBefore(c: Context, s: Session, spawnId: Id, child: Id)
    requires AfterStart(c, s, spawnId, child).1.Done?
    ensures spawnId !in s.ops.spawns.entries
  {
  }

  // ----- the session's own node -----

  lemma {:induction false} CancelSpawnsKeepNodes(c: Context, s: Session, ids: seq<Id>)
    requires Sound(c, s)
    ensures CancelSpawns(c, s, ids).tree.entries.Keys == s.tree.entries.Keys && Sound(c, CancelSpawns(c, s, ids))
    decreases |ids|
  {
    hide SubagentOperations.Consistent, AgentTree.Consistent, F.Sound, LeaveSpawn, AgentTree.Update, F.Record;
    if ids != [] {
      if ids[0] in s.ops.spawns.entries {
        TerminalKeeps(c, s, ids[0], AgentTree.Cancelled);
        AgentTree.UpdateKeeps(s.tree, s.ops.spawns.entries[ids[0]].child, AgentTree.Cancelled);
        CancelSpawnsKeepNodes(c, Terminal(c, s, ids[0], AgentTree.Cancelled), ids[1..]);
      } else {
        CancelSpawnsKeepNodes(c, s, ids[1..]);
      }
    }
  }

  lemma CancelWaitJoinKeepsNodes(c: Context, s: Session, kind: Kind, id: Id)
    requires Sound(c, s)
    ensures CancelWaitJoin(c, s, kind, id).tree.entries.Keys == s.tree.entries.Keys
    ensures Sound(c, CancelWaitJoin(c, s, kind, id))
  {
    hide SubagentOperations.Consistent, AgentTree.Consistent, F.Sound, LeaveWaitJoin, AgentTree.Update, F.Record;
    CancelWaitJoinKeeps(c, s, kind, id);
    if id in Registry(s.ops, kind).entries {
      var filed := Registry(s.ops, kind).entries[id].options;
      if filed.child.Some? {
        AgentTree.UpdateKeeps(s.tree, filed.child.value, InterruptedStatus(s, filed.child));
      }
    }
  }

  lemma {:induction false} CancelWaitJoinsKeepNodes(c: Context, s: Session, kind: Kind, ids: seq<Id>)
    requires Sound(c, s)
    ensures CancelWaitJoins(c, s, kind, ids).tree.entries.Keys == s.tree.entries.Keys
    ensures Sound(c, CancelWaitJoins(c, s, kind, ids))
    decreases |ids|
  {
    hide Sound, CancelWaitJoin;
    if ids != [] {
      CancelWaitJoinKeepsNodes(c, s, kind, ids[0]);
      CancelWaitJoinsKeepNodes(c, CancelWaitJoin(c, s, kind, ids[0]), kind, ids[1..]);
    }
  }

  /** An interruption evicts no node. */
  lemma InterruptKeepsNodes(c: Context, s: Session)
    requires Sound(c, s)
    ensures AfterInterrupt(c, s).tree.entries.Keys == s.tree.entries.Keys
  {
    hide Sound, CancelSpawns, CancelWaitJoins;
    CancelSpawnsKeepNodes(c, s, s.ops.spawns.order);
    var withoutSpawns := CancelSpawns(c, s, s.ops.spawns.order);
    CancelWaitJoinsKeepNodes(c, withoutSpawns, Wait, withoutSpawns.ops.waits.order);
    var withoutWaits := CancelWaitJoins(c, withoutSpawns, Wait, withoutSpawns.ops.waits.order);
    CancelWaitJoinsKeepNodes(c, withoutWaits, Join, withoutWaits.ops.joins.order);
  }

  lemma OwnNodeIsSpared(t: AgentTree.Tree, self: Id)
    requires AgentTree.Consistent(t) && self in t.entries
    ensures AgentTree.NextOut(t, self) == Some(self) <==> self == "" && t.order[0] == ""
  {
    WithoutKeeps(t.order, self);
    assert self in t.order;
  }

  /** Main result: the session's own node leaves the tree if and only if its identifier is
      empty, it has become the oldest node of a full tree, and a start is accepted. */
  lemma OwnNodeLeavesExactly(c: Context, s: Session, e: Event)
    requires Sound(c, s) && c.self.agentId in s.tree.entries
    ensures c.self.agentId !in Step(c, s, e).0.tree.entries <==>
            && c.self.agentId == "" && e.StartSpawn? && AfterStart(c, s, e.spawnId, e.child).1.Done?
            && |s.tree.order| == s.tree.maxSize && s.tree.order[0] == ""
  {
    hide Step, AfterStart, AgentTree.NextOut, SubagentOperations.Consistent, AgentTree.Consistent, F.Sound;
    OwnNodeIsSpared(s.tree, c.self.agentId);
    if e.Interrupt? {
      InterruptIs(c, s);
      InterruptKeepsNodes(c, s);
    } else if !e.StartSpawn? {
      OthersKeepChildren(c, s, e);
    } else {
      StartIs(c, s, e.spawnId, e.child);
      if AfterStart(c, s, e.spawnId, e.child).1.Done? {
        AcceptedStart(c, s, e.spawnId, e.child);
      } else {
        RefusalsChangeNothing(c, s, e);
      }
    }
  }

  /** Main result: an accepted start lists its child under the session's own node if and only
      if the session's identifier is not empty. */
  lemma ChildrenAreListedExactly(c: Context, s: Session, spawnId: Id, child: Id)
    requires Sound(c, s) && AfterStart(c, s, spawnId, child).1.Done?
    ensures var after := AfterStart(c, s, spawnId, child).0;
            (c.self.agentId in after.tree.entries && child in after.tree.entries[c.self.agentId].childIds) <==>
              c.self.agentId != ""
  {
    hide SubagentOperations.Consistent, F.Sound, EnterSpawn, AgentTree.Insert;
    StartKeeps(c, s, spawnId, child);
    if c.self.agentId == "" {
      AgentTree.NotLinked(s.tree, ChildLineage(c.self, child), AgentTree.Starting);
    }
  }

  // ----- no call strands a spawn -----

  ghost predicate AllHaveChildren(s: Session) {
    forall id | id in s.ops.spawns.entries :: HasChild(s, id)
  }

  /** The call strands no spawn that stays active. */
  ghost predicate Sparing(c: Context, s: Session, e: Event) {
    forall id | id in s.ops.spawns.entries && id in Step(c, s, e).0.ops.spawns.entries :: !Strands(c, s, e, id)
  }

  lemma SparingKeepsChildren(c: Context, s: Session, e: Event)
    requires Sound(c, s) && AllHaveChildren(s)
    ensures AllHaveChildren(Step(c, s, e).0) <==> Sparing(c, s, e)
  {
    hide Sound, Step, Strands, HasChild;
    var after := Step(c, s, e).0;
    forall id | id in s.ops.spawns.entries && id in after.ops.spawns.entries
      ensures HasChild(after, id) <==> !Strands(c, s, e, id)
    {
      StrandedExactly(c, s, e, id);
    }
    forall id | id in after.ops.spawns.entries && id !in s.ops.spawns.entries ensures HasChild(after, id) {
      NewSpawnHasChild(c, s, e, id);
    }
  }

  lemma NewSpawnHasChild(c: Context, s: Session, e: Event, id: Id)
    requires Sound(c, s)
    requires id in Step(c, s, e).0.ops.spawns.entries && id !in s.ops.spawns.entries
    ensures HasChild(Step(c, s, e).0, id)
  {
    hide Sound, Step, AfterStart, AgentTree.NextOut;
    if e.Interrupt? {
      InterruptIs(c, s);
      InterruptKeeps(c, s);
    } else if !e.StartSpawn? {
      OthersKeepChildren(c, s, e);
    } else {
      StartIs(c, s, e.spawnId, e.child);
      if AfterStart(c, s, e.spawnId, e.child).1.Done? {
        AcceptedStart(c, s, e.spawnId, e.child);
      } else {
        RefusalsChangeNothing(c, s, e);
      }
    }
  }

  ghost predicate AllSparing(c: Context, s: Session, events: seq<Event>)
    decreases |events|
  {
    events == [] || (Sparing(c, s, events[0]) && AllSparing(c, Step(c, s, events[0]).0, events[1..]))
  }

  ghost predicate ChildrenThroughout(c: Context, s: Session, events: seq<Event>)
    decreases |events|
  {
    AllHaveChildren(s) && (events == [] || ChildrenThroughout(c, Step(c, s, events[0]).0, events[1..]))
  }

  /** Main result: over any run, the children of all active spawns stay retained throughout if
      and only if no call strands one. */
  lemma {:induction false} ChildrenStayExactly(c: Context, s: Session, events: seq<Event>)
    requires Sound(c, s) && AllHaveChildren(s)
    ensures ChildrenThroughout(c, s, events) <==> AllSparing(c, s, events)
    decreases |events|
  {
    hide Sound, Step, AllHaveChildren, Sparing;
    if events != [] {
      var next := Step(c, s, events[0]).0;
      SparingKeepsChildren(c, s, events[0]);
      StepKeeps(c, s, events[0]);
      if AllHaveChildren(next) {
        ChildrenStayExactly(c, next, events[1..]);
      }
    }
  }

  /** A start that finds room leaves the other spawns alone. */
  lemma StartFindsRoom(c: Context, s: Session, spawnId: Id, child: Id)
    requires Sound(c, s) && c.self.agentId != "" && |s.ops.spawns.order| < s.ops.spawns.maxSize
    requires AfterStart(c, s, spawnId, child).1.Done?
    ensures var after := AfterStart(c, s, spawnId, child).0;
            && Sound(c, after) && after.ops.spawns.maxSize == s.ops.spawns.maxSize
            && |after.ops.spawns.order| == |s.ops.spawns.order| + 1
            && after.ops.spawns.entries ==
                 s.ops.spawns.entries[spawnId := Spawn(Span(s.ops.log.next, SpawnSlot(spawnId)), child, false)]
            && child in after.tree.entries && after.tree.entries[child].status == AgentTree.Starting
            && after.tree.order == AfterNewChild(s.tree, c.self.agentId, child) && after.tree.maxSize == s.tree.maxSize
  {
    hide SubagentOperations.Consistent, AgentTree.Consistent, F.Sound, AgentTree.Register;
    StartKeeps(c, s, spawnId, child);
    var l := ChildLineage(c.self, child);
    AgentTree.NewChildOrder(s.tree, l, AgentTree.Starting);
    AgentTree.RegisterKeeps(s.tree, l, AgentTree.Starting);
    EnterSpawnKeeps(s.ops, spawnId, child);
  }

  function AfterNewChild(t: AgentTree.Tree, self: Id, child: Id): seq<Id> {
    var others := Without(t.order, self) + [self];
    (if |others| < t.maxSize || others == [] then others else others[1..]) + [child]
  }

  /** A spawn started and launched in a fresh session. */
  lemma OneActive(c: Context) returns (s: Session)
    requires c.self == AgentTree.Lineage("self", "w", "self", "", 0, false)
    ensures s == AfterLaunch(AfterStart(c, Open(c, 2, 1, 1), "s1", "a").0, "s1", None).0
    ensures Sound(c, s) && s.ops.spawns.maxSize == 2 && |s.ops.spawns.order| == 1 && s.ops.spawns.entries.Keys == {"s1"}
    ensures s.ops.spawns.entries["s1"].child == "a" && s.tree.order == ["self", "a"] && s.tree.maxSize == 3
  {
    hide SubagentOperations.Consistent, AgentTree.Consistent, F.Sound, AgentTree.Register, EnterSpawn, RecordDuration;
    var s0 := Open(c, 2, 1, 1);
    OpenIsSound(c, 2, 1, 1);
    OpenTree(c);
    var s1 := AfterStart(c, s0, "s1", "a").0;
    StartFindsRoom(c, s0, "s1", "a");
    assert Without(["self"], "self") == [];
    assert s1.tree.order == ["self", "a"];
    s := AfterLaunch(s1, "s1", None).0;
    StepKeeps(c, s1, CompleteLaunch("s1", None));
    RecordDurationKeeps(s1.ops, "s1");
    ConsistentIsRegistered(s1.ops);
    OthersAfterRecordDuration(s1.ops, "s1");
    AgentTree.UpdateKeeps(s1.tree, "a", AgentTree.Active);
  }

  /** The same spawn beside a second one that has completed. */
  lemma OneActiveOneCompleted(c: Context) returns (s: Session)
    requires c.self == AgentTree.Lineage("self", "w", "self", "", 0, false)
    ensures s == Run(c, Open(c, 2, 1, 1), [StartSpawn("s1", "a"), CompleteLaunch("s1", None), StartSpawn("s2", "b"),
                                           CompleteSpawn("s2", None, None, None)])
    ensures Sound(c, s) && s.ops.spawns.maxSize == 2 && |s.ops.spawns.order| == 1 && s.ops.spawns.entries.Keys == {"s1"}
    ensures s.ops.spawns.entries["s1"].child == "a" && s.tree.order == ["a", "self", "b"] && s.tree.maxSize == 3
  {
    hide SubagentOperations.Consistent, AgentTree.Consistent, F.Sound, AgentTree.Register, EnterSpawn, LeaveSpawn;
    var s2 := OneActive(c);
    TreeKeys(c, s2);
    var s3 := AfterStart(c, s2, "s2", "b").0;
    StartFindsRoom(c, s2, "s2", "b");
    assert Without(["self", "a"], "self") == ["a"];
    assert s3.tree.order == ["a", "self", "b"];
    s := AfterComplete(c, s3, "s2", None, None, None).0;
    TerminalKeeps(c, s3, "s2", AgentTree.Completed);
    LeaveSpawnKeeps(s3.ops, "s2");
    OthersAfterLeave(s3.ops, "s2");
    AgentTree.UpdateKeeps(s3.tree, "b", AgentTree.Completed);
    RunFour(c, Open(c, 2, 1, 1), StartSpawn("s1", "a"), CompleteLaunch("s1", None), StartSpawn("s2", "b"),
        CompleteSpawn("s2", None, None, None));
  }

  lemma RunFirst(c: Context, s: Session, e: Event, rest: seq<Event>)
    ensures Run(c, s, [e] + rest) == Run(c, Step(c, s, e).0, rest)
  {
    hide Step;
    assert ([e] + rest)[1..] == rest;
  }

  lemma RunFour(c: Context, s: Session, a: Event, b: Event, d: Event, e: Event)
    ensures Run(c, s, [a, b, d, e]) == Step(c, Step(c, Step(c, Step(c, s, a).0, b).0, d).0, e).0
  {
    hide Step, Run;
    var s1 := Step(c, s, a).0;
    var s2 := Step(c, s1, b).0;
    var s3 := Step(c, s2, d).0;
    RunFirst(c, s, a, [b, d, e]);
    RunFirst(c, s1, b, [d, e]);
    RunFirst(c, s2, d, [e]);
    RunFirst(c, s3, e, []);
    RunNothing(c, Step(c, s3, e).0);
    assert [a, b, d, e] == [a] + [b, d, e] && [b, d, e] == [b] + [d, e] && [d, e] == [d] + [e] && [e] == [e] + [];
  }

  lemma RunNothing(c: Context, s: Session)
    ensures Run(c, s, []) == s
  {
  }

  lemma {:induction false} RunThenOne(c: Context, s: Session, events: seq<Event>, e: Event)
    ensures Run(c, s, events + [e]) == Step(c, Run(c, s, events), e).0
    decreases |events|
  {
    hide Step;
    if events == [] {
      assert [] + [e] == [e] && [e][1..] == [];
    } else {
      assert (events + [e])[1..] == events[1..] + [e];
      RunThenOne(c, Step(c, s, events[0]).0, events[1..], e);
    }
  }

  lemma OpenTree(c: Context)
    requires c.self == AgentTree.Lineage("self", "w", "self", "", 0, false)
    ensures var t := Open(c, 2, 1, 1).tree; t.order == ["self"] && t.entries.Keys == {"self"} && t.maxSize == 3
  {
    var empty: AgentTree.Tree := Create(3);
    var node := AgentTree.NewNode(c.self, AgentTree.Active, false);
    assert empty.order + ["self"] == ["self"];
    assert AgentTree.RetainParent(empty, "") == empty;
    assert AgentTree.Insert(empty, "self", node) == BoundedMap(3, ["self"], map["self" := node]);
    assert Open(c, 2, 1, 1).tree == AgentTree.Insert(empty, "self", node);
  }

  lemma TreeKeys(c: Context, s: Session)
    requires Sound(c, s)
    ensures forall id :: id in s.tree.entries <==> id in s.tree.order
  {
  }

  /** Such a spawn is reachable: with room for two spawns, and so for three agents, one spawn
      stays active while a second starts and completes and a third starts. */
  lemma StrandingIsReachable(c: Context)
    requires c.self == AgentTree.Lineage("self", "w", "self", "", 0, false)
    ensures var s := Run(c, Open(c, 2, 1, 1), [StartSpawn("s1", "a"), CompleteLaunch("s1", None), StartSpawn("s2", "b"),
                                               CompleteSpawn("s2", None, None, None)] + [StartSpawn("s3", "c")]);
            && "s1" in s.ops.spawns.entries && Stranded(s, "s1", s.ops.spawns.entries["s1"].span)
            && AfterComplete(c, s, "s1", None, None, None) == (s, Refused(InvalidTransition))
  {
    hide SubagentOperations.Consistent, AgentTree.Consistent, F.Sound, AgentTree.Register, EnterSpawn, LeaveSpawn,
        RecordDuration, Run;
    var four := [StartSpawn("s1", "a"), CompleteLaunch("s1", None), StartSpawn("s2", "b"),
        CompleteSpawn("s2", None, None, None)];
    var s4 := OneActiveOneCompleted(c);
    RunThenOne(c, Open(c, 2, 1, 1), four, StartSpawn("s3", "c"));
    TreeKeys(c, s4);
    StartFindsRoom(c, s4, "s3", "c");
    var s := AfterStart(c, s4, "s3", "c").0;
    assert Without(["a", "self", "b"], "self") == ["a", "b"];
    TreeKeys(c, s);
    assert s.tree.order == ["b", "self", "c"];
  }
}
