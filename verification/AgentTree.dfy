/** The tree of agents a session knows about: registration with eviction of the oldest node,
    status transitions, and the summary that the metrics and the `/obs` view show. */
module AgentTree {
  import opened BoundedMaps
  import opened Optional

  type Id = string

  datatype Status = Starting | Active | Completed | Failed | Cancelled | Orphaned

  /** An absent parent is the empty string; the tracker treats the two alike. */
  datatype Lineage = Lineage(
    agentId: Id, workflowId: Id, rootAgentId: Id, parentAgentId: Id, depth: nat, orphaned: bool)

  datatype Node = Node(lineage: Lineage, orphaned: bool, childIds: set<Id>, fanoutCount: nat, status: Status)

  type Tree = BoundedMap<Id, Node>

  predicate Terminal(status: Status) {
    status.Completed? || status.Failed? || status.Cancelled? || status.Orphaned?
  }

  predicate TransitionAllowed(current: Status, next: Status) {
    if current == next then true
    else if Terminal(current) then false
    else if current.Starting? then true
    else !next.Starting?
  }

  function Rank(status: Status): nat {
    match status
    case Starting => 0
    case Active => 1
    case _ => 2
  }

  /** The transition predicate is the order on status classes, except that a terminal status
      allows no other. */
  lemma TransitionsFollowRank(current: Status, next: Status)
    ensures TransitionAllowed(current, next) <==> current == next || (!Terminal(current) && Rank(current) <= Rank(next))
    ensures TransitionAllowed(current, next) <==>
              current == next || current == Starting || (current == Active && next != Starting)
  {
  }

  // ----- the operations as functions of the tree -----

  predicate IsOrphan(t: Tree, l: Lineage) {
    l.orphaned || (l.parentAgentId != "" && l.parentAgentId !in t.entries)
  }

  function NewNode(l: Lineage, requested: Status, orphan: bool): Node {
    Node(l, orphan, {}, 0, if orphan then Orphaned else requested)
  }

  /** A retained parent moves to the youngest place, so that the insertion spares it. */
  function RetainParent(t: Tree, parent: Id): Tree {
    if parent != "" && parent in t.entries then Put(Delete(t, parent), parent, t.entries[parent]) else t
  }

  function Detach(t: Tree, agent: Id): Tree {
    t.(entries := map k | k in t.entries :: t.entries[k].(childIds := t.entries[k].childIds - {agent}))
  }

  function Insert(t: Tree, agent: Id, node: Node): Tree {
    match EvictedBy(t, agent)
    case None => Put(t, agent, node)
    case Some(evicted) => Detach(Put(t, agent, node), evicted)
  }

  function Link(t: Tree, agent: Id, parent: Id): Tree {
    if parent == "" || parent !in t.entries then t
    else
      var p := t.entries[parent];
      var fanout := if agent in p.childIds then p.fanoutCount else p.fanoutCount + 1;
      Put(t, parent, p.(childIds := p.childIds + {agent}, fanoutCount := fanout))
  }

  function Register(t: Tree, l: Lineage, requested: Status): Tree {
    if l.agentId in t.entries && !TransitionAllowed(t.entries[l.agentId].status, requested) then t
    else
      var node := NewNode(l, requested, IsOrphan(t, l));
      Link(Insert(RetainParent(t, l.parentAgentId), l.agentId, node), l.agentId, l.parentAgentId)
  }

  predicate Accepts(t: Tree, agent: Id, status: Status) {
    agent in t.entries && TransitionAllowed(t.entries[agent].status, status)
  }

  function Update(t: Tree, agent: Id, status: Status): Tree {
    if !Accepts(t, agent, status) then t
    else
      var node := t.entries[agent];
      Put(t, agent, node.(status := status, orphaned := node.orphaned || status.Orphaned?))
  }

  datatype Event = Registered(lineage: Lineage, status: Status) | Updated(agent: Id, status: Status)

  function Step(t: Tree, e: Event): Tree {
    match e
    case Registered(lineage, status) => Register(t, lineage, status)
    case Updated(agent, status) => Update(t, agent, status)
  }

  function Run(t: Tree, events: seq<Event>): Tree
    decreases |events|
  {
    if events == [] then t else Run(Step(t, events[0]), events[1..])
  }

  // ----- the summary -----

  datatype Summary = Summary(
    activeChildren: nat, fanoutCount: nat, treeDepth: nat, treeWidth: nat, orphanCount: nat,
    childStatuses: map<Status, nat>)

  predicate ActiveIn(t: Tree, agent: Id) {
    agent in t.entries && (t.entries[agent].status.Starting? || t.entries[agent].status.Active?)
  }

  function ActiveChildren(t: Tree, node: Node): nat {
    |set c | c in node.childIds && ActiveIn(t, c)|
  }

  predicate InScope(t: Tree, root: Id, agent: Id) {
    && agent in t.entries
    && (root == "" || t.entries[agent].lineage.rootAgentId == root || t.entries[agent].lineage.agentId == root)
  }

  function Scope(t: Tree, root: Id, count: nat): (ids: seq<Id>)
    requires count <= |t.order|
    ensures forall id :: id in ids <==> id in t.order[..count] && InScope(t, root, id)
    ensures |ids| <= count && forall i | 0 <= i < |ids| :: ids[i] in t.entries
  {
    if count == 0 then []
    else
      assert t.order[..count] == t.order[..count - 1] + [t.order[count - 1]];
      Scope(t, root, count - 1) + if InScope(t, root, t.order[count - 1]) then [t.order[count - 1]] else []
  }

  ghost predicate Retained(t: Tree, ids: seq<Id>) {
    forall i | 0 <= i < |ids| :: ids[i] in t.entries
  }

  ghost function TotalActive(t: Tree, ids: seq<Id>): nat
    requires Retained(t, ids)
  {
    if ids == [] then 0 else TotalActive(t, ids[..|ids| - 1]) + ActiveChildren(t, t.entries[ids[|ids| - 1]])
  }

  ghost function TotalFanout(t: Tree, ids: seq<Id>): nat
    requires Retained(t, ids)
  {
    if ids == [] then 0 else TotalFanout(t, ids[..|ids| - 1]) + t.entries[ids[|ids| - 1]].fanoutCount
  }

  ghost function WithStatus(t: Tree, ids: seq<Id>, status: Status): nat
    requires Retained(t, ids)
  {
    if ids == [] then 0
    else WithStatus(t, ids[..|ids| - 1], status) + if t.entries[ids[|ids| - 1]].status == status then 1 else 0
  }

  ghost function AtDepth(t: Tree, ids: seq<Id>, depth: nat): nat
    requires Retained(t, ids)
  {
    if ids == [] then 0
    else AtDepth(t, ids[..|ids| - 1], depth) + if t.entries[ids[|ids| - 1]].lineage.depth == depth then 1 else 0
  }

  ghost function OrphanFlags(t: Tree, ids: seq<Id>): nat
    requires Retained(t, ids)
  {
    if ids == [] then 0 else OrphanFlags(t, ids[..|ids| - 1]) + if t.entries[ids[|ids| - 1]].orphaned then 1 else 0
  }

  /** What the summary of the listed nodes must say. */
  ghost predicate Summarizes(t: Tree, ids: seq<Id>, s: Summary)
    requires Retained(t, ids)
  {
    && s.activeChildren == TotalActive(t, ids) && s.fanoutCount == TotalFanout(t, ids)
    && s.orphanCount == OrphanFlags(t, ids)
    && (forall st: Status :: st in s.childStatuses && s.childStatuses[st] == WithStatus(t, ids, st))
    && (forall id | id in ids :: t.entries[id].lineage.depth <= s.treeDepth)
    && (s.treeDepth == 0 || exists id | id in ids :: t.entries[id].lineage.depth == s.treeDepth)
    && (forall d: nat :: AtDepth(t, ids, d) <= s.treeWidth)
    && (exists d: nat :: AtDepth(t, ids, d) == s.treeWidth)
  }

  // ----- the tracker -----

  class AgentTreeTracker {
    var nodes: Tree

    constructor (maxAgents: nat)
      requires 1 <= maxAgents
      ensures nodes == Create(maxAgents)
    {
      nodes := Create(maxAgents);
    }

    method RegisterAgent(l: Lineage, status: Status)
      requires Valid(nodes)
      modifies this
      ensures nodes == Register(old(nodes), l, status)
    {
      hide Valid, Put, Delete, Detach, EvictedBy, Link;
      if l.agentId in nodes.entries && !TransitionAllowed(nodes.entries[l.agentId].status, status) {
        return;
      }
      var node := NewNode(l, status, IsOrphan(nodes, l));
      if l.parentAgentId != "" && l.parentAgentId in nodes.entries {
        RetainKeeps(nodes, l.parentAgentId);
        var parent := nodes.entries[l.parentAgentId];
        nodes := Delete(nodes, l.parentAgentId);
        nodes := Put(nodes, l.parentAgentId, parent);
      } else {
        assert nodes == RetainParent(old(nodes), l.parentAgentId);
      }
      var evicted := EvictedBy(nodes, l.agentId);
      PutKeeps(nodes, l.agentId, node);
      nodes := Put(nodes, l.agentId, node);
      if evicted.Some? {
        DetachChildReference(evicted.value);
      }
      LinkParentToChild(l.agentId, l.parentAgentId);
    }

    method DetachChildReference(agent: Id)
      requires Valid(nodes)
      modifies this
      ensures nodes == Detach(old(nodes), agent)
    {
      ghost var before := nodes;
      var i := 0;
      while i < |nodes.order|
        invariant 0 <= i <= |nodes.order|
        invariant nodes.order == before.order && nodes.maxSize == before.maxSize
        invariant nodes.entries.Keys == before.entries.Keys
        invariant forall j | 0 <= j < i ::
                    nodes.entries[nodes.order[j]] ==
                    before.entries[nodes.order[j]].(childIds := before.entries[nodes.order[j]].childIds - {agent})
        invariant forall j | i <= j < |nodes.order| :: nodes.entries[nodes.order[j]] == before.entries[nodes.order[j]]
      {
        var node := nodes.entries[nodes.order[i]];
        nodes := nodes.(entries := nodes.entries[nodes.order[i] := node.(childIds := node.childIds - {agent})]);
        i := i + 1;
      }
      forall k | k in nodes.entries
        ensures nodes.entries[k] == before.entries[k].(childIds := before.entries[k].childIds - {agent})
      {
        assert k in nodes.order;
      }
      assert nodes.entries == Detach(before, agent).entries;
    }

    method LinkParentToChild(agent: Id, parent: Id)
      modifies this
      ensures nodes == Link(old(nodes), agent, parent)
    {
      if parent == "" || parent !in nodes.entries {
        return;
      }
      var p := nodes.entries[parent];
      var knownChild := agent in p.childIds;
      p := p.(childIds := p.childIds + {agent});
      if !knownChild {
        p := p.(fanoutCount := p.fanoutCount + 1);
      }
      nodes := nodes.(entries := nodes.entries[parent := p]);
    }

    method UpdateStatus(agent: Id, status: Status) returns (updated: bool)
      modifies this
      ensures nodes == Update(old(nodes), agent, status)
      ensures updated <==> Accepts(old(nodes), agent, status)
    {
      if agent !in nodes.entries || !TransitionAllowed(nodes.entries[agent].status, status) {
        return false;
      }
      var node := nodes.entries[agent].(status := status);
      if status.Orphaned? {
        node := node.(orphaned := true);
      }
      nodes := nodes.(entries := nodes.entries[agent := node]);
      return true;
    }

    method Summarize(root: Id) returns (s: Summary)
      requires Valid(nodes)
      ensures Retained(nodes, Scope(nodes, root, |nodes.order|))
      ensures Summarizes(nodes, Scope(nodes, root, |nodes.order|), s)
    {
      hide Summarizes, Widths, ActiveChildren;
      var ids := Scope(nodes, root, |nodes.order|);
      assert Retained(nodes, ids);
      var childStatuses: map<Status, nat> :=
        map[Starting := 0, Active := 0, Completed := 0, Failed := 0, Cancelled := 0, Orphaned := 0];
      var widthByDepth: map<nat, nat> := map[];
      s := Summary(0, 0, 0, 0, 0, childStatuses);
      assert ids[..0] == [];
      EmptySummary(nodes, s);
      var i := 0;
      while i < |ids|
        invariant 0 <= i <= |ids|
        invariant forall st: Status :: st in s.childStatuses
        invariant Summarizes(nodes, ids[..i], s) && Widths(nodes, ids[..i], widthByDepth)
      {
        var node := nodes.entries[ids[i]];
        var depth := node.lineage.depth;
        var width := (if depth in widthByDepth then widthByDepth[depth] else 0) + 1;
        ghost var before := s;
        assert ids[..i + 1][..i] == ids[..i];
        s := Summary(
          s.activeChildren + ActiveChildren(nodes, node),
          s.fanoutCount + node.fanoutCount,
          if depth > s.treeDepth then depth else s.treeDepth,
          if width > s.treeWidth then width else s.treeWidth,
          s.orphanCount + if node.orphaned then 1 else 0,
          s.childStatuses[node.status := s.childStatuses[node.status] + 1]);
        AddToSummary(nodes, ids[..i], ids[..i + 1], before, s, widthByDepth);
        widthByDepth := widthByDepth[depth := width];
        i := i + 1;
      }
      assert ids[..i] == ids;
    }
  }

  ghost predicate Widths(t: Tree, ids: seq<Id>, widthByDepth: map<nat, nat>)
    requires Retained(t, ids)
  {
    forall d: nat :: AtDepth(t, ids, d) == if d in widthByDepth then widthByDepth[d] else 0
  }

  lemma EmptySummary(t: Tree, s: Summary)
    requires s.activeChildren == s.fanoutCount == s.treeDepth == s.treeWidth == s.orphanCount == 0
    requires s.childStatuses ==
               map[Starting := 0, Active := 0, Completed := 0, Failed := 0, Cancelled := 0, Orphaned := 0]
    ensures Summarizes(t, [], s) && Widths(t, [], map[]) && forall st: Status :: st in s.childStatuses
  {
    forall st: Status ensures st in s.childStatuses && s.childStatuses[st] == 0 {
      match st
      case Starting => case Active => case Completed => case Failed => case Cancelled => case Orphaned =>
    }
    assert AtDepth(t, [], 0) == 0;
  }

  lemma AddToSummary(t: Tree, ids: seq<Id>, longer: seq<Id>, s: Summary, next: Summary, widthByDepth: map<nat, nat>)
    requires Retained(t, longer) && longer != [] && ids == longer[..|longer| - 1]
    requires Summarizes(t, ids, s) && Widths(t, ids, widthByDepth)
    requires var node := t.entries[longer[|longer| - 1]];
             var width := (if node.lineage.depth in widthByDepth then widthByDepth[node.lineage.depth] else 0) + 1;
             next == Summary(
                       s.activeChildren + ActiveChildren(t, node),
                       s.fanoutCount + node.fanoutCount,
                       if node.lineage.depth > s.treeDepth then node.lineage.depth else s.treeDepth,
                       if width > s.treeWidth then width else s.treeWidth,
                       s.orphanCount + if node.orphaned then 1 else 0,
                       s.childStatuses[node.status := s.childStatuses[node.status] + 1])
    ensures Summarizes(t, longer, next)
    ensures var depth := t.entries[longer[|longer| - 1]].lineage.depth;
            Widths(t, longer, widthByDepth[depth := (if depth in widthByDepth then widthByDepth[depth] else 0) + 1])
  {
    hide ActiveChildren, AtDepth, InScope;
    var last := longer[|longer| - 1];
    var depth := t.entries[last].lineage.depth;
    CountOneMore(t, ids, longer);
    assert forall d: nat :: AtDepth(t, longer, d) == AtDepth(t, ids, d) + if d == depth then 1 else 0;
    WidthGrows(t, ids, longer, s.treeWidth, next.treeWidth);
    assert longer == ids + [last];
    assert forall id :: id in longer <==> id in ids || id == last;
  }

  lemma CountOneMore(t: Tree, ids: seq<Id>, longer: seq<Id>)
    requires Retained(t, longer) && longer != [] && ids == longer[..|longer| - 1]
    ensures forall d: nat ::
              AtDepth(t, longer, d) ==
              AtDepth(t, ids, d) + if d == t.entries[longer[|longer| - 1]].lineage.depth then 1 else 0
  {
  }

  /** Counting one more node moves the greatest width to the width at that node's depth, if
      that became greater. */
  lemma WidthGrows(t: Tree, ids: seq<Id>, longer: seq<Id>, before: nat, after: nat)
    requires Retained(t, longer) && longer != [] && ids == longer[..|longer| - 1]
    requires forall d: nat :: AtDepth(t, ids, d) <= before
    requires exists d: nat :: AtDepth(t, ids, d) == before
    requires var width := AtDepth(t, ids, t.entries[longer[|longer| - 1]].lineage.depth) + 1;
             after == if width > before then width else before
    ensures forall d: nat :: AtDepth(t, longer, d) <= after
    ensures exists d: nat :: AtDepth(t, longer, d) == after
  {
    var depth := t.entries[longer[|longer| - 1]].lineage.depth;
    var widest: nat :| AtDepth(t, ids, widest) == before;
    assert AtDepth(t, longer, depth) == AtDepth(t, ids, depth) + 1;
    if after > before {
      assert AtDepth(t, longer, depth) == after;
    } else {
      assert AtDepth(t, longer, widest) == after;
    }
  }

  // ----- what every reachable tree keeps -----

  lemma RetainKeeps(t: Tree, parent: Id)
    requires Valid(t)
    ensures var r := RetainParent(t, parent);
            && Valid(r) && r.entries == t.entries && r.maxSize == t.maxSize && |r.order| == |t.order|
            && (parent != "" && parent in t.entries ==> r.order != [] && r.order[|r.order| - 1] == parent)
    ensures parent in t.entries ==> Valid(Delete(t, parent))
  {
    if parent in t.entries {
      assert parent in t.order;
      DeleteKeeps(t, parent);
      var deleted := Delete(t, parent);
      PutKeeps(deleted, parent, t.entries[parent]);
      assert EvictedBy(deleted, parent) == None;
    }
  }

  ghost predicate Sound(t: Tree, id: Id)
    requires id in t.entries
  {
    var n := t.entries[id];
    && n.lineage.agentId == id && n.childIds <= t.entries.Keys && |n.childIds| <= n.fanoutCount
    && (n.orphaned ==> n.status.Orphaned?)
  }

  /** The size stays within the limit, every node is filed under its own identifier, child
      identifiers are retained nodes, never more of them than the fan-out counted, and a node
      flagged as orphaned has that status. */
  ghost predicate Consistent(t: Tree) {
    Valid(t) && forall id | id in t.entries :: Sound(t, id)
  }

  lemma DetachKeeps(t: Tree, agent: Id)
    requires Valid(t)
    ensures Valid(Detach(t, agent)) && Detach(t, agent).entries.Keys == t.entries.Keys
    ensures Detach(t, agent).maxSize == t.maxSize
    ensures forall id | id in t.entries ::
              Detach(t, agent).entries[id] == t.entries[id].(childIds := t.entries[id].childIds - {agent})
  {
    assert Detach(t, agent).entries.Keys == t.entries.Keys;
  }

  /** The entries after an insertion: the new node, and every other one but the evicted,
      which no longer appears as a child. */
  lemma InsertedEntries(t: Tree, agent: Id, node: Node)
    requires Valid(t)
    ensures var after := Insert(t, agent, node);
            var gone := if EvictedBy(t, agent).Some? then {EvictedBy(t, agent).value} else {};
            && Valid(after) && after.maxSize == t.maxSize && agent !in gone && gone <= t.entries.Keys
            && after.entries.Keys == t.entries.Keys + {agent} - gone
            && after.entries[agent] == node.(childIds := node.childIds - gone)
            && forall id | id in after.entries && id != agent ::
                 after.entries[id] == t.entries[id].(childIds := t.entries[id].childIds - gone)
  {
    hide Valid, EvictedBy, Put, Detach;
    PutKeeps(t, agent, node);
    if EvictedBy(t, agent).Some? {
      DetachKeeps(Put(t, agent, node), EvictedBy(t, agent).value);
    } else {
      assert node.childIds - {} == node.childIds;
      forall id | id in t.entries ensures t.entries[id] == t.entries[id].(childIds := t.entries[id].childIds - {}) {
        assert t.entries[id].childIds - {} == t.entries[id].childIds;
      }
    }
  }

  lemma InsertKeeps(t: Tree, agent: Id, node: Node)
    requires Consistent(t) && node.lineage.agentId == agent
    requires node.childIds == {} && (node.orphaned ==> node.status.Orphaned?)
    ensures var after := Insert(t, agent, node);
            && Consistent(after) && agent in after.entries && after.maxSize == t.maxSize && after.entries[agent] == node
            && forall id | id in after.entries && id != agent ::
                 id in t.entries && after.entries[id].status == t.entries[id].status
  {
    hide Valid, EvictedBy, Insert;
    InsertedEntries(t, agent, node);
    var after := Insert(t, agent, node);
    forall id | id in after.entries ensures Sound(after, id) {
      if id != agent {
        assert Sound(t, id);
        SubsetSize(after.entries[id].childIds, t.entries[id].childIds);
      }
    }
  }

  lemma SubsetSize<T>(a: set<T>, b: set<T>)
    requires a <= b
    ensures |a| <= |b|
  {
    assert b == a + (b - a);
  }

  lemma LinkKeeps(t: Tree, agent: Id, parent: Id)
    requires Consistent(t) && agent in t.entries
    ensures Consistent(Link(t, agent, parent)) && Link(t, agent, parent).order == t.order
    ensures Link(t, agent, parent).entries.Keys == t.entries.Keys && Link(t, agent, parent).maxSize == t.maxSize
    ensures forall id | id in t.entries ::
              Link(t, agent, parent).entries[id].status == t.entries[id].status &&
              Link(t, agent, parent).entries[id].orphaned == t.entries[id].orphaned
  {
    var after := Link(t, agent, parent);
    if parent != "" && parent in t.entries {
      PutKeeps(t, parent, after.entries[parent]);
      forall id | id in after.entries ensures Sound(after, id) {
        assert Sound(t, id);
      }
    }
  }

  /** The two trees a registration goes through before it links the parent. */
  lemma Placement(t: Tree, l: Lineage, requested: Status) returns (retained: Tree, placed: Tree)
    requires Consistent(t) && (l.agentId in t.entries ==> TransitionAllowed(t.entries[l.agentId].status, requested))
    ensures retained == RetainParent(t, l.parentAgentId) && Consistent(retained)
    ensures retained.entries == t.entries && retained.maxSize == t.maxSize && |retained.order| == |t.order|
    ensures l.parentAgentId != "" && l.parentAgentId in t.entries ==>
              retained.order != [] && retained.order[|retained.order| - 1] == l.parentAgentId
    ensures placed == Insert(retained, l.agentId, NewNode(l, requested, IsOrphan(t, l)))
    ensures Consistent(placed) && l.agentId in placed.entries && placed.maxSize == t.maxSize
    ensures placed.entries[l.agentId] == NewNode(l, requested, IsOrphan(t, l))
    ensures forall id | id in placed.entries && id != l.agentId ::
              id in t.entries && placed.entries[id].status == t.entries[id].status
    ensures var after := Register(t, l, requested);
            && after == Link(placed, l.agentId, l.parentAgentId) && Consistent(after) && after.order == placed.order
            && after.entries.Keys == placed.entries.Keys && after.maxSize == t.maxSize
            && forall id | id in after.entries ::
                 && after.entries[id].status == placed.entries[id].status
                 && after.entries[id].orphaned == placed.entries[id].orphaned
  {
    hide Insert, Link, Valid, RetainParent;
    RetainKeeps(t, l.parentAgentId);
    retained := RetainParent(t, l.parentAgentId);
    forall id | id in retained.entries ensures Sound(retained, id) {
      assert Sound(t, id);
    }
    var node := NewNode(l, requested, IsOrphan(t, l));
    placed := Insert(retained, l.agentId, node);
    InsertKeeps(retained, l.agentId, node);
    LinkKeeps(placed, l.agentId, l.parentAgentId);
  }

  lemma RegisterKeeps(t: Tree, l: Lineage, requested: Status)
    requires Consistent(t)
    ensures Consistent(Register(t, l, requested)) && l.agentId in Register(t, l, requested).entries
    ensures Register(t, l, requested).maxSize == t.maxSize
    ensures forall id | id in Register(t, l, requested).entries && id != l.agentId ::
              id in t.entries && Register(t, l, requested).entries[id].status == t.entries[id].status
  {
    if !(l.agentId in t.entries && !TransitionAllowed(t.entries[l.agentId].status, requested)) {
      var retained, placed := Placement(t, l, requested);
    }
  }

  /** Main result: a registration whose status the node may not take changes nothing. Any other
      files a new node with the lineage, flagged as an orphan, and with that status, exactly if
      the lineage says so or names a parent that is not retained; drives out at most one node,
      and only for a new agent; lists the agent under a retained parent, whose fan-out grows by
      one exactly for an agent not listed there; and leaves the other nodes as they were, but for
      the one driven out among their children. */
  lemma RegistrationTakesEffect(t: Tree, l: Lineage, requested: Status)
    requires Consistent(t) && 2 <= t.maxSize
    ensures var after, agent, parent := Register(t, l, requested), l.agentId, l.parentAgentId;
            if agent in t.entries && !TransitionAllowed(t.entries[agent].status, requested) then after == t
            else
              var orphan := l.orphaned || (parent != "" && parent !in t.entries);
              var gone := DrivenOut(t, agent, parent);
              && after.entries.Keys == t.entries.Keys - gone + {agent} && agent !in gone
              && after.entries[agent].lineage == l && after.entries[agent].orphaned == orphan
              && after.entries[agent].status == (if orphan then Orphaned else requested)
              && (parent != agent ==> after.entries[agent].childIds == {} && after.entries[agent].fanoutCount == 0)
              && (parent != "" && parent != agent && parent in t.entries ==>
                    && parent in after.entries
                    && after.entries[parent] == t.entries[parent].(
                         childIds := t.entries[parent].childIds - gone + {agent},
                         fanoutCount := t.entries[parent].fanoutCount
                                        + if agent in t.entries[parent].childIds then 0 else 1))
              && forall id | id in after.entries && id != agent && (parent == "" || id != parent) ::
                   after.entries[id] == t.entries[id].(childIds := t.entries[id].childIds - gone)
  {
    hide Insert, Link, Detach, RetainParent, EvictedBy, Delete, Valid, Sound, NextOut;
    var agent, parent := l.agentId, l.parentAgentId;
    if agent !in t.entries || TransitionAllowed(t.entries[agent].status, requested) {
      var retained, placed := Placement(t, l, requested);
      InsertedEntries(retained, agent, NewNode(l, requested, IsOrphan(t, l)));
      EvictedIsNextOut(t, l, retained);
      NewAgentIsUnlisted(t, agent, parent);
      LinkTakesEffect(placed, agent, parent);
    }
  }

  /** The node a registration drives out: none for an agent already retained or while there is
      room. */
  function DrivenOut(t: Tree, agent: Id, parent: Id): set<Id> {
    if agent !in t.entries && |t.order| == t.maxSize && NextOut(t, parent).Some? then {NextOut(t, parent).value} else {}
  }

  lemma LinkTakesEffect(t: Tree, agent: Id, parent: Id)
    requires Valid(t)
    ensures Link(t, agent, parent).entries ==
            if parent == "" || parent !in t.entries then t.entries
            else
              var p := t.entries[parent];
              t.entries[parent := p.(childIds := p.childIds + {agent},
                                     fanoutCount := p.fanoutCount + if agent in p.childIds then 0 else 1)]
  {
  }

  /** What the insertion drives out, once the parent is retained. */
  lemma EvictedIsNextOut(t: Tree, l: Lineage, retained: Tree)
    requires Consistent(t) && 2 <= t.maxSize && retained == RetainParent(t, l.parentAgentId)
    ensures EvictedBy(retained, l.agentId) ==
            if l.agentId !in t.entries && |t.order| == t.maxSize then NextOut(t, l.parentAgentId) else None
    ensures l.parentAgentId != "" && l.parentAgentId in t.entries ==>
              EvictedBy(retained, l.agentId) != Some(l.parentAgentId)
  {
    hide Sound;
    RetainKeeps(t, l.parentAgentId);
    if t.order != [] {
      RetainedOrder(t, l.parentAgentId);
      WithoutKeeps(t.order, l.parentAgentId);
    }
  }

  lemma NewAgentIsUnlisted(t: Tree, agent: Id, parent: Id)
    requires Consistent(t)
    ensures agent !in t.entries && parent in t.entries ==> agent !in t.entries[parent].childIds
  {
    if parent in t.entries {
      assert Sound(t, parent);
    }
  }

  /** An update that is allowed gives one node its status, and the orphan flag with the orphaned
      one; any other changes nothing. */
  lemma UpdateTakesEffect(t: Tree, agent: Id, status: Status)
    requires Consistent(t)
    ensures var after := Update(t, agent, status);
            if agent !in t.entries || !TransitionAllowed(t.entries[agent].status, status) then after == t
            else
              var n := t.entries[agent];
              && after.order == t.order && after.maxSize == t.maxSize
              && after.entries == t.entries[agent := Node(n.lineage, n.orphaned || status == Orphaned, n.childIds,
                                                          n.fanoutCount, status)]
  {
    hide Sound;
  }

  lemma UpdateKeeps(t: Tree, agent: Id, status: Status)
    requires Consistent(t)
    ensures Consistent(Update(t, agent, status)) && Update(t, agent, status).entries.Keys == t.entries.Keys
    ensures Update(t, agent, status).maxSize == t.maxSize && Update(t, agent, status).order == t.order
    ensures forall id | id in t.entries && id != agent :: Update(t, agent, status).entries[id] == t.entries[id]
  {
    var after := Update(t, agent, status);
    if Accepts(t, agent, status) {
      PutKeeps(t, agent, after.entries[agent]);
      forall id | id in after.entries ensures Sound(after, id) {
        assert Sound(t, id);
      }
    }
  }

  lemma StepKeeps(t: Tree, e: Event)
    requires Consistent(t)
    ensures Consistent(Step(t, e)) && Step(t, e).maxSize == t.maxSize
  {
    match e
    case Registered(lineage, status) => RegisterKeeps(t, lineage, status);
    case Updated(agent, status) => UpdateKeeps(t, agent, status);
  }

  /** Main result: every reachable tree is consistent. */
  lemma {:induction false} RunsKeepTreesConsistent(t: Tree, events: seq<Event>)
    requires Consistent(t)
    ensures Consistent(Run(t, events)) && Run(t, events).maxSize == t.maxSize
    decreases |events|
  {
    if events != [] {
      StepKeeps(t, events[0]);
      RunsKeepTreesConsistent(Step(t, events[0]), events[1..]);
    }
  }

  /** Main result: with room for two nodes, registering a child of a retained parent never
      evicts that parent, and the parent then lists the child. */
  lemma RegistrationSparesTheParent(t: Tree, l: Lineage, requested: Status)
    requires Consistent(t) && l.parentAgentId != "" && l.parentAgentId in t.entries && 2 <= t.maxSize
    requires l.agentId in t.entries ==> TransitionAllowed(t.entries[l.agentId].status, requested)
    ensures var after := Register(t, l, requested);
            && l.parentAgentId in after.entries && l.agentId in after.entries[l.parentAgentId].childIds
            && after.entries[l.agentId].status == (if l.orphaned then Orphaned else requested)
  {
    var retained, placed := Placement(t, l, requested);
    InsertedEntries(retained, l.agentId, NewNode(l, requested, IsOrphan(t, l)));
    assert EvictedBy(retained, l.agentId) != Some(l.parentAgentId);
  }

  /** Where a new child of a retained parent goes: the parent moves to the youngest place, the
      oldest node makes room if none is left, and the child comes last. */
  lemma NewChildOrder(t: Tree, l: Lineage, requested: Status)
    requires Consistent(t) && l.agentId !in t.entries && l.parentAgentId != "" && l.parentAgentId in t.entries
    ensures var others := Without(t.order, l.parentAgentId) + [l.parentAgentId];
            Register(t, l, requested).order == (if |others| < t.maxSize then others else others[1..]) + [l.agentId]
  {
    var retained, placed := Placement(t, l, requested);
    RetainKeeps(t, l.parentAgentId);
    DeleteKeeps(t, l.parentAgentId);
  }

  /** The node a full tree drives out for a new child of the given parent: the oldest, a
      retained parent apart. */
  function NextOut(t: Tree, parent: Id): Option<Id> {
    var order := if parent != "" && parent in t.entries then Without(t.order, parent) else t.order;
    if order == [] then None else Some(order[0])
  }

  /** Main result: a new child drives out another node if and only if the tree is full and that
      node is the oldest one, a retained parent apart. */
  lemma NewChildEvictsExactly(t: Tree, l: Lineage, requested: Status, other: Id)
    requires Consistent(t) && l.agentId !in t.entries && 2 <= t.maxSize && other in t.entries
    ensures other !in Register(t, l, requested).entries <==>
            |t.order| == t.maxSize && NextOut(t, l.parentAgentId) == Some(other)
  {
    hide Insert, Link, Detach, Put, Delete, RetainParent, Sound;
    var retained, placed := Placement(t, l, requested);
    InsertedEntries(retained, l.agentId, NewNode(l, requested, IsOrphan(t, l)));
    RetainedOrder(t, l.parentAgentId);
  }

  lemma RetainedOrder(t: Tree, parent: Id)
    requires Consistent(t) && t.order != [] && 2 <= t.maxSize
    ensures var retained := RetainParent(t, parent);
            && |retained.order| == |t.order|
            && (|t.order| == t.maxSize ==> NextOut(t, parent) == Some(retained.order[0]))
  {
    RetainKeeps(t, parent);
    if parent in t.entries {
      DeleteKeeps(t, parent);
      WithoutKeeps(t.order, parent);
    }
  }

  /** A new agent without a parent is listed under no node. */
  lemma NotLinked(t: Tree, l: Lineage, requested: Status)
    requires Consistent(t) && l.agentId !in t.entries && l.parentAgentId == ""
    ensures forall id | id in Register(t, l, requested).entries ::
              l.agentId !in Register(t, l, requested).entries[id].childIds
  {
    hide Insert;
    var retained, placed := Placement(t, l, requested);
    var node := NewNode(l, requested, IsOrphan(t, l));
    InsertedEntries(t, l.agentId, node);
    forall id | id in placed.entries ensures l.agentId !in placed.entries[id].childIds {
      if id != l.agentId {
        assert Sound(t, id);
      }
    }
  }

  /** With room for one node only, it does: the parent is what a new child evicts. */
  lemma SingleNodeTreesEvictTheParent(t: Tree, l: Lineage, requested: Status)
    requires Consistent(t) && t.maxSize == 1 && l.parentAgentId in t.entries && l.agentId !in t.entries
    ensures l.parentAgentId !in Register(t, l, requested).entries
  {
    assert l.parentAgentId in t.order;
    var retained, placed := Placement(t, l, requested);
    InsertedEntries(retained, l.agentId, NewNode(l, requested, IsOrphan(t, l)));
    assert EvictedBy(retained, l.agentId) == Some(l.parentAgentId);
  }

  // ----- statuses only go forward -----

  lemma RegisteredStatus(t: Tree, l: Lineage, requested: Status)
    requires Consistent(t) && (l.agentId in t.entries ==> TransitionAllowed(t.entries[l.agentId].status, requested))
    ensures l.agentId in Register(t, l, requested).entries
    ensures Register(t, l, requested).entries[l.agentId].status == if IsOrphan(t, l) then Orphaned else requested
  {
    var retained, placed := Placement(t, l, requested);
  }

  lemma StepIsForward(t: Tree, e: Event, id: Id)
    requires Consistent(t) && id in t.entries && id in Step(t, e).entries
    ensures Rank(t.entries[id].status) <= Rank(Step(t, e).entries[id].status)
  {
    match e
    case Registered(l, requested) =>
      RegisterKeeps(t, l, requested);
      if id == l.agentId && TransitionAllowed(t.entries[id].status, requested) {
        RegisteredStatus(t, l, requested);
      }
    case Updated(agent, status) =>
      UpdateKeeps(t, agent, status);
  }

  ghost predicate RetainedThroughout(t: Tree, events: seq<Event>, id: Id)
    decreases |events|
  {
    id in t.entries && (events == [] || RetainedThroughout(Step(t, events[0]), events[1..], id))
  }

  /** Main result: while an agent stays retained, its status class never goes back. */
  lemma {:induction false} StatusNeverGoesBack(t: Tree, events: seq<Event>, id: Id)
    requires Consistent(t) && RetainedThroughout(t, events, id)
    ensures id in Run(t, events).entries
    ensures Rank(t.entries[id].status) <= Rank(Run(t, events).entries[id].status)
    decreases |events|
  {
    if events != [] {
      StepKeeps(t, events[0]);
      StepIsForward(t, events[0], id);
      StatusNeverGoesBack(Step(t, events[0]), events[1..], id);
    }
  }

  /** A terminal status is final except in one case: the same status is registered again with
      a lineage that has become an orphan's, and the node turns orphaned. */
  lemma TerminalStatusIsFinal(t: Tree, e: Event, id: Id)
    requires Consistent(t) && id in t.entries && id in Step(t, e).entries && Terminal(t.entries[id].status)
    ensures Step(t, e).entries[id].status != t.entries[id].status <==>
            && e.Registered? && e.lineage.agentId == id && e.status == t.entries[id].status && !e.status.Orphaned?
            && IsOrphan(t, e.lineage)
  {
    match e
    case Registered(l, requested) =>
      RegisterKeeps(t, l, requested);
      if id == l.agentId && TransitionAllowed(t.entries[id].status, requested) {
        RegisteredStatus(t, l, requested);
      }
    case Updated(agent, status) =>
      UpdateKeeps(t, agent, status);
  }

  // ----- what the summary says -----

  lemma {:induction false} StatusesAddUp(t: Tree, ids: seq<Id>)
    requires Retained(t, ids)
    ensures WithStatus(t, ids, Starting) + WithStatus(t, ids, Active) + WithStatus(t, ids, Completed) +
            WithStatus(t, ids, Failed) + WithStatus(t, ids, Cancelled) + WithStatus(t, ids, Orphaned) == |ids|
  {
    if ids != [] {
      StatusesAddUp(t, ids[..|ids| - 1]);
    }
  }

  lemma {:induction false} ActiveWithinFanout(t: Tree, ids: seq<Id>)
    requires Retained(t, ids) && Consistent(t)
    ensures TotalActive(t, ids) <= TotalFanout(t, ids) && OrphanFlags(t, ids) <= WithStatus(t, ids, Orphaned)
  {
    if ids != [] {
      ActiveWithinFanout(t, ids[..|ids| - 1]);
      var id := ids[|ids| - 1];
      assert Sound(t, id);
      var node := t.entries[id];
      SubsetSize((set c | c in node.childIds && ActiveIn(t, c)), node.childIds);
    }
  }

  lemma {:induction false} WidthWithinSize(t: Tree, ids: seq<Id>, depth: nat)
    requires Retained(t, ids)
    ensures AtDepth(t, ids, depth) <= |ids|
  {
    if ids != [] {
      WidthWithinSize(t, ids[..|ids| - 1], depth);
    }
  }

  lemma LastOf(ids: seq<Id>)
    requires ids != [] && Distinct(ids)
    ensures var rest := ids[..|ids| - 1];
            Distinct(rest) && ids[|ids| - 1] !in rest && forall x :: x in ids <==> x in rest || x == ids[|ids| - 1]
  {
    assert ids == ids[..|ids| - 1] + [ids[|ids| - 1]];
  }

  ghost function OfStatus(t: Tree, scope: set<Id>, status: Status): set<Id> {
    set id | id in scope && id in t.entries && t.entries[id].status == status
  }

  ghost function AtLevel(t: Tree, scope: set<Id>, depth: nat): set<Id> {
    set id | id in scope && id in t.entries && t.entries[id].lineage.depth == depth
  }

  ghost function Flagged(t: Tree, scope: set<Id>): set<Id> {
    set id | id in scope && id in t.entries && t.entries[id].orphaned
  }

  /** The pairs of a node in scope and a child of it that is starting or active. */
  ghost function ActivePairs(t: Tree, scope: set<Id>): set<(Id, Id)> {
    set id, c | id in scope && id in t.entries && c in t.entries[id].childIds && c in t.entries
                && (t.entries[c].status.Starting? || t.entries[c].status.Active?) :: (id, c)
  }

  lemma OneMoreOfStatus(t: Tree, rest: set<Id>, last: Id, status: Status)
    requires last !in rest && last in t.entries
    ensures |OfStatus(t, rest + {last}, status)| ==
            |OfStatus(t, rest, status)| + if t.entries[last].status == status then 1 else 0
  {
    assert OfStatus(t, rest + {last}, status) ==
           OfStatus(t, rest, status) + if t.entries[last].status == status then {last} else {};
  }

  lemma OneMoreAtLevel(t: Tree, rest: set<Id>, last: Id, depth: nat)
    requires last !in rest && last in t.entries
    ensures |AtLevel(t, rest + {last}, depth)| ==
            |AtLevel(t, rest, depth)| + if t.entries[last].lineage.depth == depth then 1 else 0
  {
    assert AtLevel(t, rest + {last}, depth) ==
           AtLevel(t, rest, depth) + if t.entries[last].lineage.depth == depth then {last} else {};
  }

  lemma OneMoreFlagged(t: Tree, rest: set<Id>, last: Id)
    requires last !in rest && last in t.entries
    ensures |Flagged(t, rest + {last})| == |Flagged(t, rest)| + if t.entries[last].orphaned then 1 else 0
  {
    assert Flagged(t, rest + {last}) == Flagged(t, rest) + if t.entries[last].orphaned then {last} else {};
  }

  lemma OneMoreActive(t: Tree, rest: set<Id>, last: Id)
    requires last !in rest && last in t.entries
    ensures |ActivePairs(t, rest + {last})| == |ActivePairs(t, rest)| + ActiveChildren(t, t.entries[last])
  {
    var own := set c | c in t.entries[last].childIds && ActiveIn(t, c);
    var pairs := set c | c in own :: (last, c);
    PairsOfOne(last, own, pairs);
    assert ActivePairs(t, rest + {last}) == ActivePairs(t, rest) + pairs;
    assert ActivePairs(t, rest) !! pairs;
  }

  lemma {:induction false} CountsAreSizes(t: Tree, ids: seq<Id>)
    requires Retained(t, ids) && Distinct(ids)
    ensures var scope := set id | id in ids;
            && (forall st: Status :: WithStatus(t, ids, st) == |OfStatus(t, scope, st)|)
            && (forall d: nat :: AtDepth(t, ids, d) == |AtLevel(t, scope, d)|)
            && OrphanFlags(t, ids) == |Flagged(t, scope)| && TotalActive(t, ids) == |ActivePairs(t, scope)|
  {
    if ids == [] {
      NothingInScope(t);
    } else {
      var rest, last := ids[..|ids| - 1], ids[|ids| - 1];
      LastOf(ids);
      CountsAreSizes(t, rest);
      hide OfStatus, AtLevel, Flagged, ActivePairs, ActiveChildren, Distinct;
      var scope := set id | id in rest;
      assert (set id | id in ids) == scope + {last};
      forall st: Status ensures WithStatus(t, ids, st) == |OfStatus(t, scope + {last}, st)| {
        OneMoreOfStatus(t, scope, last, st);
      }
      forall d: nat ensures AtDepth(t, ids, d) == |AtLevel(t, scope + {last}, d)| {
        OneMoreAtLevel(t, scope, last, d);
      }
      OneMoreFlagged(t, scope, last);
      OneMoreActive(t, scope, last);
    }
  }

  lemma NothingInScope(t: Tree)
    ensures forall st: Status :: OfStatus(t, {}, st) == {}
    ensures forall d: nat :: AtLevel(t, {}, d) == {}
    ensures Flagged(t, {}) == {} && ActivePairs(t, {}) == {} && (set id: Id | id in []) == {}
  {
  }

  lemma PairsOfOne(id: Id, own: set<Id>, pairs: set<(Id, Id)>)
    requires pairs == set c | c in own :: (id, c)
    ensures |pairs| == |own|
  {
    if own != {} {
      var c :| c in own;
      var fewer := set d | d in own - {c} :: (id, d);
      PairsOfOne(id, own - {c}, fewer);
      assert pairs == fewer + {(id, c)};
    }
  }

  lemma {:induction false} ScopeIsDistinct(t: Tree, root: Id, count: nat)
    requires Valid(t) && count <= |t.order|
    ensures Distinct(Scope(t, root, count))
  {
    if count > 0 {
      ScopeIsDistinct(t, root, count - 1);
      var rest := Scope(t, root, count - 1);
      if InScope(t, root, t.order[count - 1]) {
        assert t.order[count - 1] !in t.order[..count - 1];
        DistinctAppend(rest, t.order[count - 1]);
      }
    }
  }

  lemma ScopeIs(t: Tree, root: Id)
    requires Consistent(t)
    ensures (set id | id in t.entries && (root == "" || t.entries[id].lineage.rootAgentId == root || id == root))
            == set id | id in Scope(t, root, |t.order|)
  {
    assert t.order[..|t.order|] == t.order;
    assert forall id | id in t.entries :: Sound(t, id);
  }

  /** Main result: the summary of a tree, over all nodes or those under a root, counts the nodes
      of each status, the orphan flags and the pairs of a node and an active child; its depth
      and width are the greatest depth and the greatest number of nodes at one depth. */
  lemma SummaryIsExact(t: Tree, root: Id, s: Summary)
    requires Consistent(t)
    requires Retained(t, Scope(t, root, |t.order|)) && Summarizes(t, Scope(t, root, |t.order|), s)
    ensures var scope :=
              set id | id in t.entries && (root == "" || t.entries[id].lineage.rootAgentId == root || id == root);
            && (forall st: Status :: st in s.childStatuses && s.childStatuses[st] == |OfStatus(t, scope, st)|)
            && s.orphanCount == |Flagged(t, scope)| && s.activeChildren == |ActivePairs(t, scope)|
            && (forall id | id in scope :: t.entries[id].lineage.depth <= s.treeDepth)
            && (s.treeDepth == 0 || exists id :: id in scope && t.entries[id].lineage.depth == s.treeDepth)
            && (forall d: nat :: |AtLevel(t, scope, d)| <= s.treeWidth)
            && (exists d: nat :: |AtLevel(t, scope, d)| == s.treeWidth)
  {
    var ids := Scope(t, root, |t.order|);
    ScopeIsDistinct(t, root, |t.order|);
    ScopeIs(t, root);
    hide Scope, Consistent, OfStatus, Flagged, ActivePairs, AtLevel;
    CountsAreSizes(t, ids);
  }

  /** Main result: in the summary of a consistent tree the status counts add up to the number
      of nodes in scope, active children never exceed the fan-out, orphan flags never exceed
      orphaned statuses, and the width never exceeds the number of nodes. */
  lemma SummaryAddsUp(t: Tree, root: Id, s: Summary)
    requires Consistent(t)
    requires Retained(t, Scope(t, root, |t.order|)) && Summarizes(t, Scope(t, root, |t.order|), s)
    ensures var c := s.childStatuses;
            var n := |Scope(t, root, |t.order|)|;
            && c[Starting] + c[Active] + c[Completed] + c[Failed] + c[Cancelled] + c[Orphaned] == n
            && s.activeChildren <= s.fanoutCount && s.orphanCount <= c[Orphaned] && s.treeWidth <= n <= t.maxSize
  {
    var ids := Scope(t, root, |t.order|);
    StatusesAddUp(t, ids);
    ActiveWithinFanout(t, ids);
    var d: nat :| AtDepth(t, ids, d) == s.treeWidth;
    WidthWithinSize(t, ids, d);
  }
}
