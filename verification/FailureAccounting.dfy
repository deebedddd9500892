/** Counting a child's failure, and the parent's recovery from it, at most once: a bounded
    registry backed by an archive that is a membership filter over hashed bit positions. */
module FailureAccounting {
  import opened BoundedMaps
  import opened Optional

  type Id = string

  datatype Token = FailureOf(child: Id) | RecoveryOf(child: Id)

  /** The bits a token's digest selects. */
  type Positions = Token -> set<nat>

  function Has(bits: set<nat>, token: Token, positions: Positions): bool {
    positions(token) <= bits
  }

  function Add(bits: set<nat>, token: Token, positions: Positions): set<nat> {
    bits + positions(token)
  }

  datatype Entry = Entry(failureRecorded: bool, recoveryRecorded: bool)

  /** The registry, the archive's bits, and the children on whose account each of the two
      counters was incremented, in order. */
  datatype Accounting = Accounting(
    registry: BoundedMap<Id, Entry>, bits: set<nat>, failures: seq<Id>, recoveries: seq<Id>)

  /** `recordChildFailureAccounting`. */
  function Record(a: Accounting, child: Id, recovered: bool, positions: Positions): Accounting {
    var inRegistry := child in a.registry.entries;
    if !inRegistry && (Has(a.bits, FailureOf(child), positions) || Has(a.bits, RecoveryOf(child), positions))
    then RecordArchived(a, child, recovered, positions)
    else
      var failureRecorded := inRegistry && a.registry.entries[child].failureRecorded;
      var recoveryRecorded := inRegistry && a.registry.entries[child].recoveryRecorded;
      Accounting(
        Put(a.registry, child, Entry(true, recoveryRecorded || recovered)),
        Archive(a.bits, a.registry, EvictedBy(a.registry, child), positions),
        if failureRecorded then a.failures else a.failures + [child],
        if recovered && !recoveryRecorded then a.recoveries + [child] else a.recoveries)
  }

  /** `recordArchivedChildFailureAccounting`, when the archive knows the child. */
  function RecordArchived(a: Accounting, child: Id, recovered: bool, positions: Positions): Accounting {
    var failureRecorded := Has(a.bits, FailureOf(child), positions);
    var recoveryRecorded := Has(a.bits, RecoveryOf(child), positions);
    var bits := if failureRecorded then a.bits else Add(a.bits, FailureOf(child), positions);
    Accounting(
      a.registry,
      if recovered && !recoveryRecorded then Add(bits, RecoveryOf(child), positions) else bits,
      if failureRecorded then a.failures else a.failures + [child],
      if recovered && !recoveryRecorded then a.recoveries + [child] else a.recoveries)
  }

  /** `archiveChildFailureAccounting`, for the entry an insertion evicts. */
  function Archive(bits: set<nat>, registry: BoundedMap<Id, Entry>, evicted: Option<Id>, positions: Positions)
    : set<nat>
  {
    if evicted.None? || evicted.value !in registry.entries then bits
    else
      var archived := Add(bits, FailureOf(evicted.value), positions);
      if registry.entries[evicted.value].recoveryRecorded then Add(archived, RecoveryOf(evicted.value), positions)
      else archived
  }

  function Start(maxSize: nat): Accounting {
    Accounting(Create(maxSize), {}, [], [])
  }

  /** A failed child reported, with or without a confirmed recovery. */
  datatype Event = Event(child: Id, recovered: bool)

  function Run(a: Accounting, events: seq<Event>, positions: Positions): Accounting
    decreases |events|
  {
    if events == [] then a else Run(Record(a, events[0].child, events[0].recovered, positions), events[1..], positions)
  }

  // ----- the class that keeps the accounting -----

  class Ledger {
    var registry: BoundedMap<Id, Entry>
    var bits: set<nat>
    var failures: seq<Id>
    var recoveries: seq<Id>
    const positions: Positions

    function State(): Accounting
      reads this
    {
      Accounting(registry, bits, failures, recoveries)
    }

    constructor (maxSize: nat, positions: Positions)
      requires 1 <= maxSize
      ensures State() == Start(maxSize) && this.positions == positions
    {
      registry := Create(maxSize);
      bits := {};
      failures := [];
      recoveries := [];
      this.positions := positions;
    }

    method RecordFailure(child: Id, recoveryConfirmed: bool)
      requires Valid(registry)
      modifies this
      ensures State() == Record(old(State()), child, recoveryConfirmed, positions)
      ensures Valid(registry)
    {
      PutKeeps(registry, child, Entry(true, recoveryConfirmed));
      if child !in registry.entries {
        var handled := RecordArchivedFailure(child, recoveryConfirmed);
        if handled {
          return;
        }
      }
      var current := if child in registry.entries then registry.entries[child] else Entry(false, false);
      if !current.failureRecorded {
        failures := failures + [child];
      }
      if recoveryConfirmed && !current.recoveryRecorded {
        recoveries := recoveries + [child];
      }
      var evicted := EvictedBy(registry, child);
      if evicted.Some? {
        var entry := registry.entries[evicted.value];
        bits := Add(bits, FailureOf(evicted.value), positions);
        if entry.recoveryRecorded {
          bits := Add(bits, RecoveryOf(evicted.value), positions);
        }
      }
      PutKeeps(registry, child, Entry(true, current.recoveryRecorded || recoveryConfirmed));
      registry := Put(registry, child, Entry(true, current.recoveryRecorded || recoveryConfirmed));
    }

    method RecordArchivedFailure(child: Id, recoveryConfirmed: bool) returns (handled: bool)
      requires child !in registry.entries
      modifies this
      ensures registry == old(registry)
      ensures handled <==> Has(old(bits), FailureOf(child), positions) || Has(old(bits), RecoveryOf(child), positions)
      ensures State() ==
                if handled then RecordArchived(old(State()), child, recoveryConfirmed, positions) else old(State())
    {
      var failureRecorded := Has(bits, FailureOf(child), positions);
      var recoveryRecorded := Has(bits, RecoveryOf(child), positions);
      if !failureRecorded && !recoveryRecorded {
        return false;
      }
      if !failureRecorded {
        failures := failures + [child];
        bits := Add(bits, FailureOf(child), positions);
      }
      if recoveryConfirmed && !recoveryRecorded {
        recoveries := recoveries + [child];
        bits := Add(bits, RecoveryOf(child), positions);
      }
      return true;
    }
  }

  // ----- at most once, whatever the hashes -----

  /** What every accounting state keeps: nothing counted twice, and whatever was counted is
      still known, either to the registry or to the archive. */
  ghost predicate Sound(a: Accounting, positions: Positions) {
    && Valid(a.registry) && Distinct(a.failures) && Distinct(a.recoveries)
    && (forall c | c in a.registry.entries ::
          && a.registry.entries[c].failureRecorded && c in a.failures
          && (a.registry.entries[c].recoveryRecorded ==> c in a.recoveries))
    && (forall c | c in a.failures :: c in a.registry.entries || Has(a.bits, FailureOf(c), positions))
    && (forall c | c in a.recoveries ::
          if c in a.registry.entries then a.registry.entries[c].recoveryRecorded
          else Has(a.bits, RecoveryOf(c), positions))
  }

  lemma ArchiveGrows(bits: set<nat>, registry: BoundedMap<Id, Entry>, evicted: Option<Id>, positions: Positions)
    ensures bits <= Archive(bits, registry, evicted, positions)
  {
  }

  lemma RecordKeepsSound(a: Accounting, child: Id, recovered: bool, positions: Positions)
    requires Sound(a, positions)
    ensures Sound(Record(a, child, recovered, positions), positions)
  {
    var inRegistry := child in a.registry.entries;
    if child !in a.failures {
      DistinctAppend(a.failures, child);
    }
    if child !in a.recoveries {
      DistinctAppend(a.recoveries, child);
    }
    if inRegistry || !(Has(a.bits, FailureOf(child), positions) || Has(a.bits, RecoveryOf(child), positions)) {
      ArchiveGrows(a.bits, a.registry, EvictedBy(a.registry, child), positions);
      PutKeeps(a.registry, child, Entry(true, (inRegistry && a.registry.entries[child].recoveryRecorded) || recovered));
    }
  }

  /** Main result: over every run, evictions into the archive included, each child's failure
      is counted at most once and its recovery at most once, for every hash function. */
  lemma {:induction false} CountedAtMostOnce(a: Accounting, events: seq<Event>, positions: Positions)
    requires Sound(a, positions)
    ensures Sound(Run(a, events, positions), positions)
    decreases |events|
  {
    if events != [] {
      RecordKeepsSound(a, events[0].child, events[0].recovered, positions);
      CountedAtMostOnce(Record(a, events[0].child, events[0].recovered, positions), events[1..], positions);
    }
  }

  // ----- which failures are counted -----

  lemma BitsGrow(a: Accounting, child: Id, recovered: bool, positions: Positions)
    ensures a.bits <= Record(a, child, recovered, positions).bits
    ensures a.failures <= Record(a, child, recovered, positions).failures
    ensures a.recoveries <= Record(a, child, recovered, positions).recoveries
  {
    ArchiveGrows(a.bits, a.registry, EvictedBy(a.registry, child), positions);
  }

  lemma RegistryMembers(a: Accounting, child: Id, recovered: bool, positions: Positions, c: Id)
    requires Sound(a, positions) && c != child && c !in a.registry.entries
    ensures c !in Record(a, child, recovered, positions).registry.entries
    ensures c in Record(a, child, recovered, positions).failures <==> c in a.failures
    ensures c in Record(a, child, recovered, positions).recoveries <==> c in a.recoveries
  {
    PutKeeps(a.registry, child, Entry(true, recovered));
  }

  lemma {:induction false} MissedForGood(a: Accounting, events: seq<Event>, positions: Positions, c: Id)
    requires Sound(a, positions) && c !in a.registry.entries && Has(a.bits, FailureOf(c), positions)
    ensures c in Run(a, events, positions).failures <==> c in a.failures
    decreases |events|
  {
    if events != [] {
      var next := Record(a, events[0].child, events[0].recovered, positions);
      RecordKeepsSound(a, events[0].child, events[0].recovered, positions);
      BitsGrow(a, events[0].child, events[0].recovered, positions);
      if events[0].child != c {
        RegistryMembers(a, events[0].child, events[0].recovered, positions, c);
      }
      MissedForGood(next, events[1..], positions, c);
    }
  }

  /** A child's failure is counted for good, or missed for good. */
  lemma {:induction false} CountedForGood(a: Accounting, events: seq<Event>, positions: Positions)
    ensures a.failures <= Run(a, events, positions).failures
    ensures a.recoveries <= Run(a, events, positions).recoveries
    decreases |events|
  {
    if events != [] {
      BitsGrow(a, events[0].child, events[0].recovered, positions);
      CountedForGood(Record(a, events[0].child, events[0].recovered, positions), events[1..], positions);
    }
  }

  /** Main result: a child's failure is counted exactly when, at its first report, the
      archive does not already claim it. */
  lemma {:induction false} CountedUnlessClaimed(a: Accounting, before: seq<Event>, first: Event, after: seq<Event>,
      positions: Positions)
    requires Sound(a, positions)
    requires first.child !in a.registry.entries && first.child !in a.failures
    requires forall e | e in before :: e.child != first.child
    ensures first.child in Run(a, before + [first] + after, positions).failures
       <==> !Has(Run(a, before, positions).bits, FailureOf(first.child), positions)
    decreases |before|
  {
    var c := first.child;
    if before == [] {
      assert before + [first] + after == [first] + after;
      assert ([first] + after)[1..] == after;
      var next := Record(a, c, first.recovered, positions);
      RecordKeepsSound(a, c, first.recovered, positions);
      if Has(a.bits, FailureOf(c), positions) {
        MissedForGood(next, after, positions, c);
      } else {
        CountedForGood(next, after, positions);
        assert c in next.failures;
      }
    } else {
      var e := before[0];
      RecordKeepsSound(a, e.child, e.recovered, positions);
      RegistryMembers(a, e.child, e.recovered, positions, c);
      assert (before + [first] + after)[1..] == before[1..] + [first] + after;
      CountedUnlessClaimed(Record(a, e.child, e.recovered, positions), before[1..], first, after, positions);
    }
  }

  // ----- recoveries counted without their failure -----

  /** Some report of the child confirms a recovery that the archive does not claim then. */
  ghost predicate RecoveryUnclaimed(a: Accounting, events: seq<Event>, positions: Positions, c: Id)
    decreases |events|
  {
    events != [] && (
      || (events[0].child == c && events[0].recovered && !Has(a.bits, RecoveryOf(c), positions))
      || RecoveryUnclaimed(Record(a, events[0].child, events[0].recovered, positions), events[1..], positions, c))
  }

  /** Of a child whose failure the archive claims, a recovery is counted exactly when one is
      reported that the archive does not claim. */
  lemma {:induction false} RecoveryCountedUnlessClaimed(a: Accounting, events: seq<Event>, positions: Positions, c: Id)
    requires Sound(a, positions) && Has(a.bits, FailureOf(c), positions)
    requires c !in a.registry.entries && c !in a.recoveries
    ensures c in Run(a, events, positions).recoveries <==> RecoveryUnclaimed(a, events, positions, c)
    decreases |events|
  {
    if events != [] {
      var e := events[0];
      var next := Record(a, e.child, e.recovered, positions);
      RecordKeepsSound(a, e.child, e.recovered, positions);
      BitsGrow(a, e.child, e.recovered, positions);
      if e.child != c {
        RegistryMembers(a, e.child, e.recovered, positions, c);
      }
      if c in next.recoveries {
        CountedForGood(next, events[1..], positions);
      } else {
        RecoveryCountedUnlessClaimed(next, events[1..], positions, c);
      }
    }
  }

  lemma {:induction false} RunSplits(a: Accounting, before: seq<Event>, after: seq<Event>, positions: Positions)
    ensures Run(a, before + after, positions) == Run(Run(a, before, positions), after, positions)
    decreases |before|
  {
    if before == [] {
      assert before + after == after;
    } else {
      assert (before + after)[1..] == before[1..] + after;
      RunSplits(Record(a, before[0].child, before[0].recovered, positions), before[1..], after, positions);
    }
  }

  /** A child nobody has reported is unknown to registry and counters. */
  lemma {:induction false} UnreportedStays(a: Accounting, events: seq<Event>, positions: Positions, c: Id)
    requires Sound(a, positions) && forall e | e in events :: e.child != c
    requires c !in a.registry.entries && c !in a.failures && c !in a.recoveries
    ensures var after := Run(a, events, positions);
            c !in after.registry.entries && c !in after.failures && c !in after.recoveries
    decreases |events|
  {
    if events != [] {
      var e := events[0];
      RecordKeepsSound(a, e.child, e.recovered, positions);
      RegistryMembers(a, e.child, e.recovered, positions, c);
      UnreportedStays(Record(a, e.child, e.recovered, positions), events[1..], positions, c);
    }
  }

  /** Main result: a recovery is counted for a new child whose failure is not, if and only if
      the archive claims the failure at the child's first report and some report confirms a
      recovery that the archive does not claim then. */
  lemma RecoveryWithoutFailureExactly(a: Accounting, before: seq<Event>, first: Event, after: seq<Event>,
      positions: Positions)
    requires Sound(a, positions) && forall e | e in before :: e.child != first.child
    requires first.child !in a.registry.entries && first.child !in a.failures && first.child !in a.recoveries
    ensures var c, end := first.child, Run(a, before + [first] + after, positions);
            var found := Run(a, before, positions);
            c in end.recoveries && c !in end.failures <==>
              && Has(found.bits, FailureOf(c), positions)
              && RecoveryUnclaimed(found, [first] + after, positions, c)
  {
    hide Run, Record, Sound, Has, RecoveryUnclaimed;
    var c, found := first.child, Run(a, before, positions);
    CountedUnlessClaimed(a, before, first, after, positions);
    CountedAtMostOnce(a, before, positions);
    UnreportedStays(a, before, positions, c);
    RunSplits(a, before, [first] + after, positions);
    assert before + [first] + after == before + ([first] + after);
    if Has(found.bits, FailureOf(c), positions) {
      RecoveryCountedUnlessClaimed(found, [first] + after, positions, c);
    }
  }

  /** The report at an index is the first of its child. */
  predicate FirstReport(events: seq<Event>, k: nat)
    requires k < |events|
  {
    forall i | 0 <= i < k :: events[i].child != events[k].child
  }

  /** At the first report of its child the archive claims the failure, and a recovery that it
      does not claim is reported then or later. */
  ghost predicate Loses(maxSize: nat, events: seq<Event>, positions: Positions, k: nat)
    requires k < |events|
  {
    var found := Run(Start(maxSize), events[..k], positions);
    && FirstReport(events, k) && Has(found.bits, FailureOf(events[k].child), positions)
    && RecoveryUnclaimed(found, events[k..], positions, events[k].child)
  }

  lemma StartKnowsNobody(maxSize: nat, positions: Positions)
    requires 1 <= maxSize
    ensures var a := Start(maxSize);
            Sound(a, positions) && a.registry.entries == map[] && a.failures == a.recoveries == []
  {
  }

  lemma SplitAt(events: seq<Event>, k: nat)
    requires k < |events| && FirstReport(events, k)
    ensures events == events[..k] + [events[k]] + events[k + 1..] && events[k..] == [events[k]] + events[k + 1..]
    ensures forall e | e in events[..k] :: e.child != events[k].child
  {
  }

  lemma LosesExactly(maxSize: nat, events: seq<Event>, positions: Positions, k: nat)
    requires 1 <= maxSize && k < |events| && FirstReport(events, k)
    ensures var end := Run(Start(maxSize), events, positions);
            Loses(maxSize, events, positions, k) <==>
              events[k].child in end.recoveries && events[k].child !in end.failures
  {
    hide Start, Sound, Run, Record, Has, RecoveryUnclaimed, FirstReport;
    StartKnowsNobody(maxSize, positions);
    SplitAt(events, k);
    RecoveryWithoutFailureExactly(Start(maxSize), events[..k], events[k], events[k + 1..], positions);
  }

  /** Every child in a counter has been reported, and so once for the first time. */
  lemma {:induction false} FirstReportOf(events: seq<Event>, c: Id) returns (k: nat)
    requires exists e | e in events :: e.child == c
    ensures k < |events| && FirstReport(events, k) && events[k].child == c
  {
    if events[0].child == c {
      k := 0;
    } else {
      assert events == [events[0]] + events[1..];
      k := FirstReportOf(events[1..], c);
      k := k + 1;
      assert forall i | 0 <= i < k :: i == 0 || events[i] == events[1..][i - 1];
    }
  }

  /** Main result: over a run of a new ledger every counted recovery has a counted failure if
      and only if no first report is one that loses the failure. */
  lemma RecoveriesHaveFailuresExactly(maxSize: nat, events: seq<Event>, positions: Positions)
    requires 1 <= maxSize
    ensures var end := Run(Start(maxSize), events, positions);
            (forall c | c in end.recoveries :: c in end.failures) <==>
              forall k | 0 <= k < |events| :: !Loses(maxSize, events, positions, k)
  {
    hide Loses;
    var end := Run(Start(maxSize), events, positions);
    forall k | 0 <= k < |events| && Loses(maxSize, events, positions, k)
      ensures events[k].child in end.recoveries && events[k].child !in end.failures
    {
      LosesFirst(maxSize, events, positions, k);
      LosesExactly(maxSize, events, positions, k);
    }
    if c :| c in end.recoveries && c !in end.failures {
      if !exists e | e in events :: e.child == c {
        UnreportedStays(Start(maxSize), events, positions, c);
      }
      var k := FirstReportOf(events, c);
      LosesExactly(maxSize, events, positions, k);
    }
  }

  lemma LosesFirst(maxSize: nat, events: seq<Event>, positions: Positions, k: nat)
    requires k < |events| && Loses(maxSize, events, positions, k)
    ensures FirstReport(events, k)
  {
  }

  // ----- an exact archive -----

  ghost predicate Covers(positions: Positions, tokens: set<Token>, bits: set<nat>) {
    && (forall t | t in tokens :: positions(t) <= bits)
    && (forall b | b in bits :: exists t | t in tokens :: b in positions(t))
  }

  /** Among the tokens of the given children, none has all its bits taken by others: for
      these children the filter answers like a set. */
  ghost predicate Collisionless(positions: Positions, children: set<Id>) {
    forall token: Token, tokens: set<Token>, bits: set<nat> |
      token.child in children && (forall t | t in tokens :: t.child in children) && Covers(positions, tokens, bits) ::
      positions(token) <= bits ==> token in tokens
  }

  /** Each child stands where its counted transitions say: in the registry, or in the
      archive. */
  ghost predicate Stands(entries: map<Id, Entry>, archived: set<Token>, failures: seq<Id>, recoveries: seq<Id>) {
    && (forall c | c in entries ::
          && FailureOf(c) !in archived && RecoveryOf(c) !in archived && c in failures
          && (entries[c].recoveryRecorded <==> c in recoveries))
    && (forall c | c !in entries ::
          && (FailureOf(c) in archived <==> c in failures)
          && (RecoveryOf(c) in archived <==> c in recoveries))
    && (forall c | c in recoveries :: c in failures)
  }

  /** The archive holds exactly the given tokens, all of them the given children's. */
  ghost predicate Faithful(a: Accounting, archived: set<Token>, positions: Positions, children: set<Id>) {
    && Sound(a, positions) && Covers(positions, archived, a.bits)
    && (forall t | t in archived :: t.child in children)
    && (forall c | c in a.registry.entries :: c in children)
    && Stands(a.registry.entries, archived, a.failures, a.recoveries)
  }

  function ArchivedTokens(archived: set<Token>, a: Accounting, child: Id, recovered: bool): set<Token> {
    if child !in a.registry.entries && FailureOf(child) in archived then
      if recovered then archived + {RecoveryOf(child)} else archived
    else
      match EvictedBy(a.registry, child)
      case None => archived
      case Some(evicted) =>
        if evicted in a.registry.entries && a.registry.entries[evicted].recoveryRecorded
        then archived + {FailureOf(evicted), RecoveryOf(evicted)}
        else archived + {FailureOf(evicted)}
  }

  lemma CoversAdd(positions: Positions, tokens: set<Token>, bits: set<nat>, token: Token)
    requires Covers(positions, tokens, bits)
    ensures Covers(positions, tokens + {token}, Add(bits, token, positions))
  {
    forall b | b in Add(bits, token, positions) ensures exists t | t in tokens + {token} :: b in positions(t) {
      if b in positions(token) {
        assert token in tokens + {token};
      } else {
        var t :| t in tokens && b in positions(t);
        assert t in tokens + {token};
      }
    }
  }

  lemma CoversArchive(a: Accounting, archived: set<Token>, positions: Positions, evicted: Id)
    requires Covers(positions, archived, a.bits) && evicted in a.registry.entries
    ensures Covers(positions,
                   archived + (if a.registry.entries[evicted].recoveryRecorded
                               then {FailureOf(evicted), RecoveryOf(evicted)} else {FailureOf(evicted)}),
                   Archive(a.bits, a.registry, Some(evicted), positions))
  {
    CoversAdd(positions, archived, a.bits, FailureOf(evicted));
    var once := Add(a.bits, FailureOf(evicted), positions);
    CoversAdd(positions, archived + {FailureOf(evicted)}, once, RecoveryOf(evicted));
    assert archived + {FailureOf(evicted)} + {RecoveryOf(evicted)} ==
        archived + {FailureOf(evicted), RecoveryOf(evicted)};
  }

  lemma ArchivedKeepsFaithful(a: Accounting, archived: set<Token>, child: Id, recovered: bool, positions: Positions,
      children: set<Id>)
    requires Faithful(a, archived, positions, children) && Collisionless(positions, children) && child in children
    requires child !in a.registry.entries && FailureOf(child) in archived
    ensures Faithful(Record(a, child, recovered, positions), ArchivedTokens(archived, a, child, recovered), positions,
              children)
    ensures recovered ==> child in Record(a, child, recovered, positions).recoveries
  {
    RecordKeepsSound(a, child, recovered, positions);
    assert Has(a.bits, RecoveryOf(child), positions) <==> RecoveryOf(child) in archived;
    CoversAdd(positions, archived, a.bits, RecoveryOf(child));
    assert RecoveryOf(child) in archived ==> archived + {RecoveryOf(child)} == archived;
  }

  lemma StandsPut(entries: map<Id, Entry>, archived: set<Token>, failures: seq<Id>, recoveries: seq<Id>, child: Id,
      recovered: bool, evicted: Option<Id>)
    returns (after: map<Id, Entry>, tokens: set<Token>)
    requires Stands(entries, archived, failures, recoveries)
    requires child in entries || FailureOf(child) !in archived
    requires evicted.Some? ==> evicted.value in entries && child !in entries
    ensures after == (if evicted.Some? then entries - {evicted.value} else entries)
                     [child := Entry(true, (child in entries && entries[child].recoveryRecorded) || recovered)]
    ensures tokens == match evicted
                      case None => archived
                      case Some(e) =>
                        archived + if entries[e].recoveryRecorded then {FailureOf(e), RecoveryOf(e)} else {FailureOf(e)}
    ensures Stands(after, tokens,
                   if child in entries then failures else failures + [child],
                   if recovered && !(child in entries && entries[child].recoveryRecorded) then recoveries + [child]
                   else recoveries)
  {
    after := (if evicted.Some? then entries - {evicted.value} else entries)
             [child := Entry(true, (child in entries && entries[child].recoveryRecorded) || recovered)];
    tokens := match evicted
              case None => archived
              case Some(e) =>
                archived + if entries[e].recoveryRecorded then {FailureOf(e), RecoveryOf(e)} else {FailureOf(e)};
  }

  lemma FreshKeepsFaithful(a: Accounting, archived: set<Token>, child: Id, recovered: bool, positions: Positions,
      children: set<Id>)
    requires Faithful(a, archived, positions, children) && Collisionless(positions, children) && child in children
    requires child in a.registry.entries || FailureOf(child) !in archived
    ensures Faithful(Record(a, child, recovered, positions), ArchivedTokens(archived, a, child, recovered), positions,
              children)
    ensures recovered ==> child in Record(a, child, recovered, positions).recoveries
  {
    hide Stands, Sound;
    var next, tokens := Record(a, child, recovered, positions), ArchivedTokens(archived, a, child, recovered);
    RecordKeepsSound(a, child, recovered, positions);
    FreshIsUnknown(a, archived, child, positions, children);
    PutKeeps(a.registry, child,
        Entry(true, (child in a.registry.entries && a.registry.entries[child].recoveryRecorded) || recovered));
    var evicted := EvictedBy(a.registry, child);
    var after, archivedTokens :=
        StandsPut(a.registry.entries, archived, a.failures, a.recoveries, child, recovered, evicted);
    if evicted.Some? {
      CoversArchive(a, archived, positions, evicted.value);
    }
    assert after == next.registry.entries && archivedTokens == tokens;
    assert Covers(positions, tokens, next.bits);
  }

  lemma FreshIsUnknown(a: Accounting, archived: set<Token>, child: Id, positions: Positions, children: set<Id>)
    requires Faithful(a, archived, positions, children) && Collisionless(positions, children) && child in children
    requires child in a.registry.entries || FailureOf(child) !in archived
    ensures Valid(a.registry)
    ensures child in a.registry.entries ==> a.registry.entries[child].failureRecorded
    ensures child !in a.registry.entries ==>
              !Has(a.bits, FailureOf(child), positions) && !Has(a.bits, RecoveryOf(child), positions)
    ensures child in a.registry.entries && a.registry.entries[child].recoveryRecorded ==> child in a.recoveries
  {
  }

  lemma RecordKeepsFaithful(a: Accounting, archived: set<Token>, child: Id, recovered: bool, positions: Positions,
      children: set<Id>)
    requires Faithful(a, archived, positions, children) && Collisionless(positions, children) && child in children
    ensures Faithful(Record(a, child, recovered, positions), ArchivedTokens(archived, a, child, recovered), positions,
              children)
    ensures child in Record(a, child, recovered, positions).failures
    ensures recovered ==> child in Record(a, child, recovered, positions).recoveries
  {
    if child !in a.registry.entries && FailureOf(child) in archived {
      ArchivedKeepsFaithful(a, archived, child, recovered, positions, children);
    } else {
      FreshKeepsFaithful(a, archived, child, recovered, positions, children);
    }
  }

  /** Main result: with an exact archive, a child's failure is counted exactly once if it was
      ever reported, its recovery exactly once if one was ever confirmed, and every counted
      recovery has a counted failure. */
  lemma {:induction false} ExactArchiveIsFaithful(a: Accounting, archived: set<Token>, events: seq<Event>,
      positions: Positions, children: set<Id>)
    returns (archivedAfter: set<Token>)
    requires Faithful(a, archived, positions, children) && Collisionless(positions, children)
    requires forall e | e in events :: e.child in children
    ensures Faithful(Run(a, events, positions), archivedAfter, positions, children)
    ensures forall c :: c in Run(a, events, positions).failures <==>
              c in a.failures || exists e | e in events :: e.child == c
    ensures forall c :: c in Run(a, events, positions).recoveries <==>
              c in a.recoveries || exists e | e in events :: e.child == c && e.recovered
    decreases |events|
  {
    archivedAfter := archived;
    if events != [] {
      var e := events[0];
      var next := Record(a, e.child, e.recovered, positions);
      RecordKeepsFaithful(a, archived, e.child, e.recovered, positions, children);
      archivedAfter := ExactArchiveIsFaithful(next, ArchivedTokens(archived, a, e.child, e.recovered), events[1..],
          positions, children);
      OnlyItsOwn(a, e, positions);
      assert events == [e] + events[1..];
    }
  }

  /** The same from an empty ledger. */
  lemma FreshLedgerIsFaithful(maxSize: nat, events: seq<Event>, positions: Positions)
    requires 1 <= maxSize && Collisionless(positions, set e | e in events :: e.child)
    ensures var after := Run(Start(maxSize), events, positions);
            && (forall c :: c in after.failures <==> exists e | e in events :: e.child == c)
            && (forall c :: c in after.recoveries <==> exists e | e in events :: e.child == c && e.recovered)
            && (forall c | c in after.recoveries :: c in after.failures)
            && Distinct(after.failures) && Distinct(after.recoveries)
  {
    var archived := ExactArchiveIsFaithful(Start(maxSize), {}, events, positions, set e | e in events :: e.child);
  }

  /** A report counts transitions of the reported child only. */
  lemma OnlyItsOwn(a: Accounting, e: Event, positions: Positions)
    ensures forall c :: c in Record(a, e.child, e.recovered, positions).failures ==> c in a.failures || c == e.child
    ensures forall c :: c in Record(a, e.child, e.recovered, positions).recoveries ==>
              c in a.recoveries || (c == e.child && e.recovered)
    ensures forall c :: c in a.failures ==> c in Record(a, e.child, e.recovered, positions).failures
    ensures forall c :: c in a.recoveries ==> c in Record(a, e.child, e.recovered, positions).recoveries
  {
  }

  /** A collision breaks it: when two children's tokens share all their bits, a recovery can
      be counted for a child whose failure is not. */
  lemma CollisionLosesAFailure() returns (positions: Positions, events: seq<Event>)
    ensures var after := Run(Start(1), events, positions); "c" in after.recoveries && "c" !in after.failures
  {
    positions := (t: Token) => if t.FailureOf? then {0} else {1};
    events := [Event("a", false), Event("b", false), Event("c", true)];
    var s0 := Start(1);
    var s1 := Record(s0, "a", false, positions);
    assert s1 == Accounting(BoundedMap(1, ["a"], map["a" := Entry(true, false)]), {}, ["a"], []);
    var s2 := Record(s1, "b", false, positions);
    assert EvictedBy(s1.registry, "b") == Some("a");
    assert s2.bits == {0} && "c" !in s2.registry.entries && s2.failures == ["a", "b"] && s2.recoveries == [];
    var s3 := Record(s2, "c", true, positions);
    assert events[1..] == [Event("b", false), Event("c", true)] && events[1..][1..] == [Event("c", true)];
    assert Run(s2, [Event("c", true)], positions) == Run(s3, [], positions);
  }
}
