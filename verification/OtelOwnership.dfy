/** The process-wide ownership of telemetry operations that did not finish: what is retained,
    in which order it is retried before a new start, and when it is let go. */
module OtelOwnership {
  import opened Optional

  datatype Kind = Flush | Shutdown

  /** A bounded result as the callers report it; a settlement is named by a number. */
  datatype Result = Result(completed: bool, timedOut: bool, error: bool, settlement: Option<nat>)

  /** `runBoundedOtelOperation` never times out without a settlement to wait for. */
  predicate Bounded(r: Result) {
    r.timedOut ==> r.settlement.Some?
  }

  predicate IsCompleted(r: Result) {
    r.completed && !r.timedOut && !r.error
  }

  predicate CanRetry(r: Result) {
    !r.timedOut && r.settlement.None?
  }

  datatype Operation = Operation(id: nat, kind: Kind, settling: bool, pending: Option<nat>)

  /** The suspended `retryUnresolvedOperations`: which kind it is retrying, and the operation
      whose retry it awaits. */
  datatype Resolution = Resolution(phase: Kind, awaiting: nat)

  /** How a resolution ends: with an answer, or because a retry threw. */
  datatype Verdict = Says(answer: bool) | Throws

  /** `operations` in insertion order. `resolution` is the retry loop while it is suspended and
      `unread` its verdict from then until `finishResolution` forgets it; `callers` counts the
      calls that wait for that verdict, `told` lists what earlier calls were told, and `answers`
      the answers in the order in which they were found. */
  datatype Ownership = Ownership(
    operations: seq<Operation>, diagnosticEmitted: bool, resolution: Option<Resolution>, unread: Option<Verdict>,
    next: nat, callers: nat, told: seq<Verdict>, answers: seq<bool>)

  const FRESH := Ownership([], false, None, None, 0, 0, [], [])

  // ----- the set of operations -----

  function Find(ops: seq<Operation>, id: nat): Option<Operation> {
    if ops == [] then None else if ops[0].id == id then Some(ops[0]) else Find(ops[1..], id)
  }

  function Remove(ops: seq<Operation>, id: nat): seq<Operation> {
    if ops == [] then [] else if ops[0].id == id then ops[1..] else [ops[0]] + Remove(ops[1..], id)
  }

  function Replace(ops: seq<Operation>, op: Operation): seq<Operation> {
    if ops == [] then [] else if ops[0].id == op.id then [op] + ops[1..] else [ops[0]] + Replace(ops[1..], op)
  }

  /** The next operation of a kind that an iteration visits after the identifier `last`: the
      iteration sees removals and additions, and identifiers follow insertion. */
  function NextOf(ops: seq<Operation>, kind: Kind, last: int): Option<Operation> {
    if ops == [] then None
    else if ops[0].id > last && ops[0].kind == kind then Some(ops[0])
    else NextOf(ops[1..], kind, last)
  }

  // ----- the operations on it -----

  function Observed(op: Operation, r: Result): Operation {
    var judged := op.(settling := !CanRetry(r));
    if r.settlement.Some? then judged.(settling := true, pending := r.settlement) else judged
  }

  function Release(o: Ownership, id: nat): Ownership {
    var left := Remove(o.operations, id);
    o.(operations := left, diagnosticEmitted := o.diagnosticEmitted && (left != [] || Find(o.operations, id).None?))
  }

  function Answer(o: Ownership, answer: bool): Ownership {
    o.(resolution := None, unread := Some(Says(answer)), answers := o.answers + [answer])
  }

  /** The retry loop from one suspension to the next. */
  function Resume(o: Ownership, phase: Kind, last: int): Ownership
    decreases if phase.Flush? then 1 else 0
  {
    match NextOf(o.operations, phase, last)
    case Some(op) => if op.settling then Answer(o, false) else o.(resolution := Some(Resolution(phase, op.id)))
    case None => if phase.Flush? then Resume(o, Shutdown, -1) else Answer(o, o.operations == [])
  }

  datatype Event =
    | Retain(kind: Kind, result: Result)
    | ResolveBeforeStart
    | RetryReturns(result: Result)
    | RetryThrows
    | ResolutionReturns
    | Settles(id: nat, settlement: nat, completed: bool)
    | TakeDiagnostic

  predicate Enabled(o: Ownership, e: Event) {
    match e
    case RetryReturns(_) => o.resolution.Some?
    case RetryThrows => o.resolution.Some?
    case ResolutionReturns => o.unread.Some?
    case _ => true
  }

  function AfterRequest(o: Ownership): Ownership {
    var asked := o.(callers := o.callers + 1);
    if o.resolution.Some? || o.unread.Some? then asked else Resume(asked, Flush, -1)
  }

  /** Everyone who asked meanwhile is told the same. */
  function AfterReturn(o: Ownership): Ownership
    requires o.unread.Some?
  {
    o.(unread := None, callers := 0, told := o.told + seq(o.callers, i => o.unread.value))
  }

  function AfterRetain(o: Ownership, kind: Kind, r: Result): Ownership {
    if IsCompleted(r) then o
    else o.(operations := o.operations + [Observed(Operation(o.next, kind, false, None), r)], next := o.next + 1)
  }

  function AfterRetry(o: Ownership, r: Result): Ownership
    requires o.resolution.Some?
  {
    var awaited := Find(o.operations, o.resolution.value.awaiting);
    if IsCompleted(r) then
      Resume(Release(o, o.resolution.value.awaiting), o.resolution.value.phase, o.resolution.value.awaiting)
    else if awaited.None? then Answer(o, false)
    else Answer(o.(operations := Replace(o.operations, Observed(awaited.value, r))), false)
  }

  function AfterSettlement(o: Ownership, id: nat, settlement: nat, completed: bool): Ownership {
    var op := Find(o.operations, id);
    if op.None? || op.value.pending != Some(settlement) then o
    else if completed then Release(o, id)
    else o.(operations := Replace(o.operations, op.value.(settling := false, pending := None)))
  }

  predicate EmitsDiagnostic(o: Ownership) {
    o.operations != [] && !o.diagnosticEmitted
  }

  function Step(o: Ownership, e: Event): Ownership
    requires Enabled(o, e)
  {
    match e
    case Retain(kind, r) => AfterRetain(o, kind, r)
    case ResolveBeforeStart => AfterRequest(o)
    case RetryReturns(r) => AfterRetry(o, r)
    case RetryThrows => o.(resolution := None, unread := Some(Throws))
    case ResolutionReturns => AfterReturn(o)
    case Settles(id, settlement, completed) => AfterSettlement(o, id, settlement, completed)
    case TakeDiagnostic => o.(diagnosticEmitted := o.diagnosticEmitted || EmitsDiagnostic(o))
  }

  // ----- the ownership object -----

  class ProcessOtelOperationOwnership {
    var operations: seq<Operation>
    var diagnosticEmitted: bool
    var resolution: Option<Resolution>
    var unread: Option<Verdict>
    var next: nat
    var callers: nat
    var told: seq<Verdict>
    var answers: seq<bool>

    ghost function Value(): Ownership
      reads this
    {
      Ownership(operations, diagnosticEmitted, resolution, unread, next, callers, told, answers)
    }

    constructor ()
      ensures Value() == FRESH
    {
      operations, diagnosticEmitted, resolution, unread := [], false, None, None;
      next, callers, told, answers := 0, 0, [], [];
    }

    method RetainOperation(kind: Kind, result: Result)
      modifies this
      ensures Value() == Step(old(Value()), Retain(kind, result))
    {
      if IsCompleted(result) {
        return;
      }
      var op := Operation(next, kind, !CanRetry(result), None);
      if result.settlement.Some? {
        op := op.(settling := true, pending := result.settlement);
      }
      operations := operations + [op];
      next := next + 1;
    }

    method RequestResolution()
      modifies this
      ensures Value() == Step(old(Value()), ResolveBeforeStart)
    {
      callers := callers + 1;
      if resolution.Some? || unread.Some? {
        return;
      }
      RetryUnresolvedOperations(Flush, -1);
    }

    method FinishResolution()
      requires Enabled(Value(), ResolutionReturns)
      modifies this
      ensures Value() == Step(old(Value()), ResolutionReturns)
    {
      var verdict := unread.value;
      told := told + seq(callers, i => verdict);
      unread := None;
      callers := 0;
    }

    /** The two nested loops, from where they were suspended. */
    method RetryUnresolvedOperations(from: Kind, after: int)
      modifies this
      ensures Value() == Resume(old(Value()), from, after)
    {
      var phase, last, done := from, after, false;
      while !done
        invariant Value() == old(Value())
        invariant !done ==> Resume(Value(), phase, last) == Resume(old(Value()), from, after)
        invariant done ==> Resume(old(Value()), from, after) == Answer(Value(), operations == [])
        decreases !done, if phase.Flush? then 1 else 0
      {
        var i := 0;
        while i < |operations|
          invariant 0 <= i <= |operations| && Value() == old(Value())
          invariant NextOf(operations, phase, last) == NextOf(operations[i..], phase, last)
        {
          var op := operations[i];
          assert operations[i..][1..] == operations[i + 1..];
          if op.id > last && op.kind == phase {
            if op.settling {
              EndResolution(false);
              return;
            }
            resolution := Some(Resolution(phase, op.id));
            return;
          }
          i := i + 1;
        }
        if phase.Flush? {
          phase, last := Shutdown, -1;
        } else {
          done := true;
        }
      }
      EndResolution(operations == []);
    }

    method EndResolution(answer: bool)
      modifies this`answers, this`resolution, this`unread
      ensures Value() == Answer(old(Value()), answer)
    {
      answers := answers + [answer];
      resolution := None;
      unread := Some(Says(answer));
    }

    method ReleaseOperation(id: nat)
      modifies this`operations, this`diagnosticEmitted
      ensures Value() == Release(old(Value()), id)
    {
      if Find(operations, id).None? {
        RemoveAbsent(operations, id);
        return;
      }
      operations := Remove(operations, id);
      if operations == [] {
        diagnosticEmitted := false;
      }
    }

    method ReturnRetry(result: Result)
      requires Enabled(Value(), RetryReturns(result))
      modifies this
      ensures Value() == Step(old(Value()), RetryReturns(result))
    {
      var id, phase := resolution.value.awaiting, resolution.value.phase;
      var awaited := Find(operations, id);
      if IsCompleted(result) {
        ReleaseOperation(id);
        RetryUnresolvedOperations(phase, id);
        return;
      }
      if awaited.Some? {
        var op := awaited.value.(settling := !CanRetry(result));
        if result.settlement.Some? {
          op := op.(settling := true, pending := result.settlement);
        }
        operations := Replace(operations, op);
      }
      EndResolution(false);
    }

    method ThrowFromRetry()
      requires Enabled(Value(), RetryThrows)
      modifies this
      ensures Value() == Step(old(Value()), RetryThrows)
    {
      resolution := None;
      unread := Some(Throws);
    }

    method ApplyPendingSettlement(id: nat, settlement: nat, completed: bool)
      modifies this
      ensures Value() == Step(old(Value()), Settles(id, settlement, completed))
    {
      var op := Find(operations, id);
      if op.None? || op.value.pending != Some(settlement) {
        return;
      }
      if completed {
        ReleaseOperation(id);
        return;
      }
      operations := Replace(operations, op.value.(settling := false, pending := None));
    }

    method TakeStartupDiagnostic() returns (emitted: bool)
      modifies this
      ensures Value() == Step(old(Value()), TakeDiagnostic)
      ensures emitted <==> EmitsDiagnostic(old(Value()))
    {
      if operations == [] || diagnosticEmitted {
        return false;
      }
      diagnosticEmitted := true;
      return true;
    }
  }

  lemma {:induction false} RemoveAbsent(ops: seq<Operation>, id: nat)
    requires Find(ops, id).None?
    ensures Remove(ops, id) == ops
  {
    if ops != [] {
      RemoveAbsent(ops[1..], id);
    }
  }

  // ----- the set of operations, by membership -----

  ghost predicate Increasing(ops: seq<Operation>) {
    forall i, j | 0 <= i < j < |ops| :: ops[i].id < ops[j].id
  }

  lemma Cons(ops: seq<Operation>)
    requires Increasing(ops) && ops != []
    ensures Increasing(ops[1..]) && (forall x :: x in ops <==> x == ops[0] || x in ops[1..])
    ensures forall x | x in ops[1..] :: ops[0].id < x.id
  {
    assert ops == [ops[0]] + ops[1..];
  }

  lemma {:induction false} FindIs(ops: seq<Operation>, id: nat)
    requires Increasing(ops)
    ensures Find(ops, id).Some? ==> Find(ops, id).value in ops && Find(ops, id).value.id == id
    ensures forall x | x in ops && x.id == id :: Find(ops, id) == Some(x)
  {
    if ops != [] {
      Cons(ops);
      FindIs(ops[1..], id);
    }
  }

  lemma IncreasingCons(op: Operation, rest: seq<Operation>)
    requires Increasing(rest) && forall x | x in rest :: op.id < x.id
    ensures Increasing([op] + rest)
  {
    forall j | 0 <= j < |rest| ensures op.id < rest[j].id {
      assert rest[j] in rest;
    }
  }

  lemma {:induction false} RemoveIs(ops: seq<Operation>, id: nat)
    requires Increasing(ops)
    ensures Increasing(Remove(ops, id)) && forall x :: x in Remove(ops, id) <==> x in ops && x.id != id
    ensures |Remove(ops, id)| == |ops| - if Find(ops, id).Some? then 1 else 0
  {
    if ops != [] {
      Cons(ops);
      RemoveIs(ops[1..], id);
      if ops[0].id != id {
        IncreasingCons(ops[0], Remove(ops[1..], id));
      }
    }
  }

  lemma {:induction false} ReplaceIs(ops: seq<Operation>, op: Operation)
    requires Increasing(ops)
    ensures Increasing(Replace(ops, op)) && |Replace(ops, op)| == |ops|
    ensures forall x :: x in Replace(ops, op) <==> (x in ops && x.id != op.id) || (x == op && Find(ops, op.id).Some?)
  {
    if ops != [] {
      Cons(ops);
      ReplaceIs(ops[1..], op);
      FindIs(ops[1..], op.id);
      if ops[0].id != op.id {
        IncreasingCons(ops[0], Replace(ops[1..], op));
      } else {
        IncreasingCons(op, ops[1..]);
      }
    }
  }

  lemma {:induction false} NextOfIs(ops: seq<Operation>, kind: Kind, last: int)
    requires Increasing(ops)
    ensures match NextOf(ops, kind, last)
            case Some(op) =>
              && op in ops && op.kind == kind && last < op.id
              && forall x | x in ops && x.kind == kind && last < x.id :: op.id <= x.id
            case None => forall x | x in ops && x.kind == kind :: x.id <= last
  {
    if ops != [] {
      Cons(ops);
      NextOfIs(ops[1..], kind, last);
    }
  }

  // ----- what every run keeps -----

  /** Operations are listed in the order of their retention, a settling one has a settlement
      to wait for, and an empty set has no diagnostic outstanding. */
  ghost predicate Kept(o: Ownership) {
    && Increasing(o.operations) && (forall x | x in o.operations :: x.id < o.next && (x.settling <==> x.pending.Some?))
    && (o.operations == [] ==> !o.diagnosticEmitted)
  }

  /** A resolution awaits the retry of an operation that is owned, of its phase and not
      settling, and no operation of that phase comes before it; calls wait exactly while a
      resolution is under way or its verdict unread; and an unread answer is the last found. */
  ghost predicate Sound(o: Ownership) {
    && Kept(o) && !(o.resolution.Some? && o.unread.Some?) && (o.callers > 0 <==> o.resolution.Some? || o.unread.Some?)
    && (o.unread.Some? && o.unread.value.Says? ==>
          o.answers != [] && o.unread.value.answer == o.answers[|o.answers| - 1])
    && (o.resolution.Some? ==>
          && Find(o.operations, o.resolution.value.awaiting).Some?
          && Find(o.operations, o.resolution.value.awaiting).value.kind == o.resolution.value.phase
          && !Find(o.operations, o.resolution.value.awaiting).value.settling
          && forall x | x in o.operations && x.kind == o.resolution.value.phase :: o.resolution.value.awaiting <= x.id)
  }

  /** Resuming with no earlier operation of the phase left either suspends at a retry or
      answers whether anything is unresolved; it goes on to shutdowns only without a flush. */
  lemma ResumeKeeps(o: Ownership, phase: Kind, last: int)
    requires Kept(o) && o.callers > 0 && o.unread.None?
    requires forall x | x in o.operations && x.kind == phase :: last < x.id
    ensures var after := Resume(o, phase, last);
            && Sound(after) && after.operations == o.operations && after.diagnosticEmitted == o.diagnosticEmitted
            && after.next == o.next && after.callers == o.callers && after.told == o.told
            && (after.resolution.Some? ==> after.answers == o.answers)
            && (after.resolution.None? ==>
                  after.answers == o.answers + [o.operations == []] && after.unread == Some(Says(o.operations == [])))
            && (phase.Flush? && after.resolution.Some? && after.resolution.value.phase.Shutdown? ==>
                  forall x | x in o.operations :: x.kind.Shutdown?)
    decreases if phase.Flush? then 1 else 0
  {
    NextOfIs(o.operations, phase, last);
    match NextOf(o.operations, phase, last) {
      case Some(op) => FindIs(o.operations, op.id);
      case None =>
        if phase.Flush? {
          ResumeKeeps(o, Shutdown, -1);
        }
    }
  }

  /** A call joins the resolution under way, or begins one. */
  lemma RequestKeeps(o: Ownership)
    requires Sound(o)
    ensures var after := AfterRequest(o);
            && Sound(after) && after.operations == o.operations && after.diagnosticEmitted == o.diagnosticEmitted
            && after.callers == o.callers + 1 && after.told == o.told
            && (after.answers == o.answers || after.answers == o.answers + [o.operations == []])
            && (after.resolution != o.resolution ==> o.resolution.None?)
            && (o.resolution.None? && after.resolution.Some? && after.resolution.value.phase.Shutdown? ==>
                  forall x | x in o.operations :: x.kind.Shutdown?)
  {
    if o.resolution.None? && o.unread.None? {
      ResumeKeeps(o.(callers := o.callers + 1), Flush, -1);
    }
  }

  lemma ReleaseKeeps(o: Ownership, id: nat)
    requires Kept(o)
    ensures Kept(Release(o, id)) && forall x :: x in Release(o, id).operations <==> x in o.operations && x.id != id
  {
    RemoveIs(o.operations, id);
    if Find(o.operations, id).None? {
      RemoveAbsent(o.operations, id);
    }
  }

  /** The results are those of the bounded runner. */
  predicate Contractual(o: Ownership, e: Event) {
    && Enabled(o, e) && (e.Retain? ==> Bounded(e.result)) && (e.RetryReturns? ==> Bounded(e.result))
  }

  lemma RetryKeeps(o: Ownership, r: Result)
    requires Sound(o) && o.resolution.Some? && Bounded(r)
    ensures Sound(AfterRetry(o, r))
    ensures IsCompleted(r) ==> AfterRetry(o, r).operations == Remove(o.operations, o.resolution.value.awaiting)
  {
    var id, phase := o.resolution.value.awaiting, o.resolution.value.phase;
    FindIs(o.operations, id);
    if IsCompleted(r) {
      ReleaseKeeps(o, id);
      ResumeKeeps(Release(o, id), phase, id);
    } else {
      ReplaceIs(o.operations, Observed(Find(o.operations, id).value, r));
    }
  }

  lemma SettlementKeeps(o: Ownership, id: nat, settlement: nat, completed: bool)
    requires Sound(o)
    ensures Sound(AfterSettlement(o, id, settlement, completed))
  {
    var op := Find(o.operations, id);
    FindIs(o.operations, id);
    if op.Some? && op.value.pending == Some(settlement) {
      ReleaseKeeps(o, id);
      var after := AfterSettlement(o, id, settlement, completed);
      ReplaceIs(o.operations, op.value.(settling := false, pending := None));
      if o.resolution.Some? {
        FindIs(o.operations, o.resolution.value.awaiting);
        FindIs(after.operations, o.resolution.value.awaiting);
      }
    }
  }

  lemma RetainKeeps(o: Ownership, kind: Kind, r: Result)
    requires Sound(o) && Bounded(r)
    ensures Sound(AfterRetain(o, kind, r))
  {
    var after := AfterRetain(o, kind, r);
    if !IsCompleted(r) {
      forall i | 0 <= i < |o.operations| ensures o.operations[i].id < o.next {
        assert o.operations[i] in o.operations;
      }
      if o.resolution.Some? {
        FindIs(o.operations, o.resolution.value.awaiting);
        FindIs(after.operations, o.resolution.value.awaiting);
      }
    }
  }

  lemma StepKeeps(o: Ownership, e: Event)
    requires Sound(o) && Contractual(o, e)
    ensures Sound(Step(o, e))
  {
    hide AfterRetain, AfterRequest, AfterRetry, AfterSettlement, Resume;
    match e
    case Retain(kind, r) => RetainKeeps(o, kind, r);
    case ResolveBeforeStart => RequestKeeps(o);
    case RetryReturns(r) => RetryKeeps(o, r);
    case Settles(id, settlement, completed) => SettlementKeeps(o, id, settlement, completed);
    case _ =>
  }

  ghost predicate EnabledRun(o: Ownership, events: seq<Event>)
    decreases |events|
  {
    events == [] || (Enabled(o, events[0]) && EnabledRun(Step(o, events[0]), events[1..]))
  }

  ghost predicate ContractualRun(o: Ownership, events: seq<Event>)
    ensures ContractualRun(o, events) ==> EnabledRun(o, events)
    decreases |events|
  {
    events == [] || (Contractual(o, events[0]) && ContractualRun(Step(o, events[0]), events[1..]))
  }

  ghost function Run(o: Ownership, events: seq<Event>): Ownership
    requires EnabledRun(o, events)
    decreases |events|
  {
    if events == [] then o else Run(Step(o, events[0]), events[1..])
  }

  /** Main result: over every run, whatever the order of retries and settlements, a settling
      operation has a settlement that will be observed, and only an owned operation that is
      not settling is being retried. */
  lemma {:induction false} RunsKeepOwnership(o: Ownership, events: seq<Event>)
    requires Sound(o) && ContractualRun(o, events)
    ensures Sound(Run(o, events))
    decreases |events|
  {
    hide Sound, Step;
    if events != [] {
      StepKeeps(o, events[0]);
      RunsKeepOwnership(Step(o, events[0]), events[1..]);
    }
  }

  // ----- what single steps do -----

  /** Main result: an answer found is that a start may go on exactly when nothing is
      unresolved at that moment; a retry that throws finds none. */
  lemma AnswersAreTrue(o: Ownership, e: Event)
    requires Sound(o) && Contractual(o, e)
    ensures var after := Step(o, e);
            after.answers == o.answers || after.answers == o.answers + [after.operations == []]
  {
    match e
    case ResolveBeforeStart => RequestKeeps(o);
    case RetryReturns(r) =>
      var id := o.resolution.value.awaiting;
      FindIs(o.operations, id);
      if IsCompleted(r) {
        ReleaseKeeps(o, id);
        ResumeKeeps(Release(o, id), o.resolution.value.phase, id);
      } else {
        ReplaceIs(o.operations, Observed(Find(o.operations, id).value, r));
      }
    case _ =>
  }

  /** What can make an answer untrue before it is read: an unfinished operation is retained
      when there was none, or the last one settles completed. */
  predicate Ages(o: Ownership, e: Event) {
    match e
    case Retain(_, r) => o.operations == [] && !IsCompleted(r)
    case Settles(id, settlement, completed) =>
      |o.operations| == 1 && o.operations[0].id == id && o.operations[0].pending == Some(settlement) && completed
    case _ => false
  }

  /** Main result: an answer that is true and has not been read stays so over a step, joining
      calls included, if and only if the step does not age it. */
  lemma AnswersAgeExactly(o: Ownership, e: Event)
    requires Sound(o) && Enabled(o, e) && !e.ResolutionReturns? && o.unread == Some(Says(o.operations == []))
    ensures Step(o, e).unread == o.unread
    ensures o.unread == Some(Says(Step(o, e).operations == [])) <==> !Ages(o, e)
  {
    match e
    case Settles(id, settlement, completed) =>
      var op := Find(o.operations, id);
      if op.Some? && op.value.pending == Some(settlement) {
        FindIs(o.operations, id);
        RemoveIs(o.operations, id);
        ReplaceIs(o.operations, op.value.(settling := false, pending := None));
      }
      assert |o.operations| == 1 && o.operations[0].id == id ==> op == Some(o.operations[0]);
    case _ =>
  }

  ghost function Asked(events: seq<Event>): nat
    decreases |events|
  {
    if events == [] then 0 else (if events[0].ResolveBeforeStart? then 1 else 0) + Asked(events[1..])
  }

  lemma TellingAddsUp(o: Ownership, e: Event)
    requires Enabled(o, e)
    ensures var after := Step(o, e);
            && |after.told| + after.callers == |o.told| + o.callers + Asked([e]) && o.told <= after.told
            && forall k | |o.told| <= k < |after.told| :: o.unread == Some(after.told[k])
  {
    hide Find, Remove, Replace, NextOf;
    assert [e][1..] == [];
  }

  /** Over every run no call waits when no resolution is under way, and calls told and calls
      waiting are all the calls made. */
  lemma {:induction false} EveryCallIsToldOnce(o: Ownership, events: seq<Event>)
    requires Sound(o) && ContractualRun(o, events)
    ensures var after := Run(o, events);
            && |after.told| + after.callers == |o.told| + o.callers + Asked(events) && o.told <= after.told
            && (after.resolution.None? && after.unread.None? ==> after.callers == 0)
    decreases |events|
  {
    hide Step, Kept;
    if events != [] {
      StepKeeps(o, events[0]);
      TellingAddsUp(o, events[0]);
      assert [events[0]][1..] == [];
      EveryCallIsToldOnce(Step(o, events[0]), events[1..]);
    }
  }

  /** What a call is told is the answer last found, or that a retry threw. */
  lemma CallersAreToldTheLastAnswer(o: Ownership, e: Event)
    requires Sound(o) && Enabled(o, e)
    ensures var told := Step(o, e).told;
            && o.told <= told && (told != o.told ==> e.ResolutionReturns? && |told| == |o.told| + o.callers)
            && forall k | |o.told| <= k < |told| ::
                 told[k].Throws? || (o.answers != [] && told[k] == Says(o.answers[|o.answers| - 1]))
  {
    hide Find, Remove, Replace, NextOf, Kept;
  }

  /** The event completes the operation: its own retry returned completed, or the settlement
      it was waiting for did. */
  predicate Completes(o: Ownership, e: Event, op: Operation) {
    || (e.RetryReturns? && o.resolution.Some? && o.resolution.value.awaiting == op.id && IsCompleted(e.result))
    || (e.Settles? && e.id == op.id && op.pending == Some(e.settlement) && e.completed)
  }

  /** Main result: an operation leaves the set exactly by its own completed result. */
  lemma LeavesOnlyCompleted(o: Ownership, e: Event, op: Operation)
    requires Sound(o) && Contractual(o, e) && op in o.operations
    ensures (forall x | x in Step(o, e).operations :: x.id != op.id) <==> Completes(o, e, op)
  {
    hide Sound, Kept, Resume;
    FindIs(o.operations, op.id) by { SoundIsIncreasing(o); }
    match e
    case Retain(kind, r) => assert op in Step(o, e).operations;
    case ResolveBeforeStart => StepOperations(o, e);
    case RetryReturns(r) => RetryLeaves(o, r, op);
    case Settles(id, settlement, completed) => SettlementLeaves(o, id, settlement, completed, op);
    case RetryThrows => assert op in Step(o, e).operations;
    case ResolutionReturns => assert op in Step(o, e).operations;
    case TakeDiagnostic => assert op in Step(o, e).operations;
  }

  lemma SoundIsIncreasing(o: Ownership)
    requires Sound(o)
    ensures Increasing(o.operations)
  {
  }

  lemma StepOperations(o: Ownership, e: Event)
    requires Sound(o) && e.ResolveBeforeStart?
    ensures Step(o, e).operations == o.operations
  {
    RequestKeeps(o);
  }

  lemma RetryLeaves(o: Ownership, r: Result, op: Operation)
    requires Sound(o) && o.resolution.Some? && Bounded(r) && op in o.operations
    ensures (forall x | x in AfterRetry(o, r).operations :: x.id != op.id) <==>
              o.resolution.value.awaiting == op.id && IsCompleted(r)
  {
    var id := o.resolution.value.awaiting;
    RetryKeeps(o, r);
    RemoveIs(o.operations, id);
    FindIs(o.operations, id);
    if !IsCompleted(r) {
      var awaited := Observed(Find(o.operations, id).value, r);
      ReplaceIs(o.operations, awaited);
      if op.id == id {
        assert awaited in AfterRetry(o, r).operations;
      } else {
        assert op in AfterRetry(o, r).operations;
      }
    } else if op.id != id {
      assert op in AfterRetry(o, r).operations;
    }
  }

  lemma SettlementLeaves(o: Ownership, id: nat, settlement: nat, completed: bool, op: Operation)
    requires Sound(o) && op in o.operations
    ensures (forall x | x in AfterSettlement(o, id, settlement, completed).operations :: x.id != op.id) <==>
              id == op.id && op.pending == Some(settlement) && completed
  {
    var found := Find(o.operations, id);
    FindIs(o.operations, id);
    var after := AfterSettlement(o, id, settlement, completed);
    if found.Some? && found.value.pending == Some(settlement) {
      RemoveIs(o.operations, id);
      var retryable := found.value.(settling := false, pending := None);
      ReplaceIs(o.operations, retryable);
      if op.id != id {
        assert op in after.operations;
      } else if !completed {
        assert retryable in after.operations;
      }
    } else {
      assert op in after.operations;
    }
  }

  // ----- under which kind operations are owned -----

  /** Retaining an unfinished result adds exactly one operation, the youngest, of the kind of the
      call; it settles if its result timed out or came with a settlement, for which it then
      waits. A completed result adds none. */
  lemma RetainAddsExactly(o: Ownership, kind: Kind, r: Result)
    ensures var after := Step(o, Retain(kind, r));
            if r.completed && !r.timedOut && !r.error then after == o
            else
              && |after.operations| == |o.operations| + 1 && after.operations[..|o.operations|] == o.operations
              && after == o.(operations := after.operations, next := o.next + 1)
              && var op := after.operations[|o.operations|];
                 && op.id == o.next && op.kind == kind && op.pending == r.settlement
                 && (op.settling <==> r.timedOut || r.settlement.Some?)
  {
    var after := Step(o, Retain(kind, r));
    assert !(r.completed && !r.timedOut && !r.error) ==> after.operations[..|o.operations|] == o.operations;
  }

  /** What is owned was owned before under the same kind, or has just been retained. */
  ghost predicate KindsStay(o: Ownership, e: Event)
    requires Enabled(o, e)
  {
    forall x | x in Step(o, e).operations ::
      || (exists y :: y in o.operations && y.id == x.id && y.kind == x.kind)
      || (e.Retain? && x.id == o.next < Step(o, e).next && x.kind == e.kind)
  }

  lemma StepKeepsKinds(o: Ownership, e: Event)
    requires Sound(o) && Contractual(o, e)
    ensures KindsStay(o, e)
  {
    hide Resume, Sound, Kept;
    SoundIsIncreasing(o);
    match e
    case Retain(kind, r) => RetainAddsExactly(o, kind, r);
    case ResolveBeforeStart => StepOperations(o, e);
    case RetryReturns(r) => RetryKeepsKinds(o, r);
    case Settles(id, settlement, completed) =>
      var found := Find(o.operations, id);
      FindIs(o.operations, id);
      if found.Some? && found.value.pending == Some(settlement) {
        RemoveIs(o.operations, id);
        ReplaceIs(o.operations, found.value.(settling := false, pending := None));
      }
    case _ =>
  }

  lemma RetryKeepsKinds(o: Ownership, r: Result)
    requires Sound(o) && o.resolution.Some? && Bounded(r)
    ensures forall x | x in AfterRetry(o, r).operations ::
              exists y :: y in o.operations && y.id == x.id && y.kind == x.kind
  {
    var id := o.resolution.value.awaiting;
    RetryKeeps(o, r);
    RemoveIs(o.operations, id);
    FindIs(o.operations, id);
    if !IsCompleted(r) {
      var awaited := Find(o.operations, id).value;
      ReplaceIs(o.operations, Observed(awaited, r));
      assert Observed(awaited, r).kind == awaited.kind && Observed(awaited, r).id == awaited.id;
    }
  }

  /** The kinds of the unfinished operations that a run retains, in order. */
  ghost function Given(events: seq<Event>): seq<Kind>
    decreases |events|
  {
    if events == [] then []
    else
      var e := events[|events| - 1];
      Given(events[..|events| - 1])
      + if e.Retain? && !(e.result.completed && !e.result.timedOut && !e.result.error) then [e.kind] else []
  }

  lemma {:induction false} RunThenOne(o: Ownership, events: seq<Event>, e: Event)
    requires ContractualRun(o, events + [e])
    ensures ContractualRun(o, events) && Contractual(Run(o, events), e)
    ensures Run(o, events + [e]) == Step(Run(o, events), e)
    decreases |events|
  {
    hide Step, Contractual;
    if events == [] {
      assert [] + [e] == [e] && [e][1..] == [];
      assert Run(Step(o, e), []) == Step(o, e);
    } else {
      assert (events + [e])[1..] == events[1..] + [e];
      RunThenOne(Step(o, events[0]), events[1..], e);
    }
  }

  /** Main result: over every run of a new ownership, whatever is retried and settles in
      between, each operation is owned under the kind it was retained with. */
  lemma {:induction false} OwnedAsGiven(events: seq<Event>)
    requires ContractualRun(FRESH, events)
    ensures var o := Run(FRESH, events);
            && Sound(o) && o.next == |Given(events)|
            && forall x | x in o.operations :: x.id < o.next && x.kind == Given(events)[x.id]
    decreases |events|
  {
    hide Step, EnabledRun, ContractualRun, Run, Sound, Kept;
    FreshIsSound();
    if events == [] {
      RunNothing(FRESH);
    } else {
      var before, e := events[..|events| - 1], events[|events| - 1];
      assert events == before + [e];
      RunThenOne(FRESH, before, e);
      OwnedAsGiven(before);
      var o := Run(FRESH, before);
      StepKeeps(o, e);
      StepKeepsKinds(o, e);
      NextCounts(o, e);
      GivenOne(before, e);
      assert KindsStay(o, e);
      forall x | x in Step(o, e).operations ensures x.id < Step(o, e).next && x.kind == Given(events)[x.id] {
        if y :| y in o.operations && y.id == x.id && y.kind == x.kind {
          assert Given(before)[y.id] == Given(events)[y.id];
        }
      }
    }
  }

  lemma GivenOne(before: seq<Event>, e: Event)
    ensures Given(before + [e]) ==
            Given(before) +
            if e.Retain? && !(e.result.completed && !e.result.timedOut && !e.result.error) then [e.kind] else []
  {
    assert (before + [e])[..|before|] == before;
  }

  lemma RunNothing(o: Ownership)
    ensures EnabledRun(o, []) && Run(o, []) == o
  {
  }

  lemma FreshIsSound()
    ensures Sound(FRESH) && FRESH.next == 0 && FRESH.operations == []
  {
  }

  lemma NextCounts(o: Ownership, e: Event)
    requires Sound(o) && Contractual(o, e)
    ensures Step(o, e).next ==
            o.next + (if e.Retain? && !(e.result.completed && !e.result.timedOut && !e.result.error) then 1 else 0)
  {
    hide Find, Remove, Replace, NextOf, Kept;
  }

  /** Main result: every retry begun is of an owned operation that is not settling, and a
      shutdown is retried only from a moment at which no flush was owned. */
  lemma RetriesAreOrdered(o: Ownership, e: Event)
    requires Sound(o) && Contractual(o, e)
    requires Step(o, e).resolution.Some? && Step(o, e).resolution != o.resolution
    ensures var after := Step(o, e);
            && Find(after.operations, after.resolution.value.awaiting).Some?
            && !Find(after.operations, after.resolution.value.awaiting).value.settling
            && (after.resolution.value.phase.Shutdown? ==>
                  || (o.resolution.Some? && o.resolution.value.phase.Shutdown?)
                  || forall x | x in after.operations :: x.kind.Shutdown?)
  {
    StepKeeps(o, e);
    match e
    case ResolveBeforeStart => RequestKeeps(o);
    case RetryReturns(r) =>
      var id := o.resolution.value.awaiting;
      FindIs(o.operations, id);
      if IsCompleted(r) {
        ReleaseKeeps(o, id);
        ResumeKeeps(Release(o, id), o.resolution.value.phase, id);
      }
    case _ =>
  }

  /** Main result: after any run of a new ownership, a retry that a step begins is of the oldest
      operation owned of the kind it was retained with; and if that was a shutdown, either a
      shutdown was being retried already, or every operation owned was retained as one. */
  lemma RetriesFollowTheKindsGiven(events: seq<Event>, e: Event)
    requires ContractualRun(FRESH, events) && Contractual(Run(FRESH, events), e)
    requires Step(Run(FRESH, events), e).resolution.Some?
    requires Step(Run(FRESH, events), e).resolution != Run(FRESH, events).resolution
    ensures var o, after, given := Run(FRESH, events), Step(Run(FRESH, events), e), Given(events);
            var retried := after.resolution.value.awaiting;
            && (forall x | x in after.operations :: x.id < |given|) && retried < |given|
            && (exists x :: x in after.operations && x.id == retried)
            && (forall x | x in after.operations && given[x.id] == given[retried] :: retried <= x.id)
            && (given[retried].Shutdown? ==>
                  || (o.resolution.Some? && o.resolution.value.awaiting < |given|
                      && given[o.resolution.value.awaiting].Shutdown?)
                  || forall x | x in after.operations :: given[x.id].Shutdown?)
  {
    hide ContractualRun, EnabledRun, Run, Resume, AfterRequest, AfterRetry, AfterRetain, AfterSettlement;
    var o := Run(FRESH, events);
    OwnedAsGiven(events);
    RetriesAreOrdered(o, e);
    StepKeeps(o, e);
    StepKeepsKinds(o, e);
    NextCounts(o, e);
    RetriedIsOwned(o);
    RetriedIsOwned(Step(o, e));
    NewRetryIsNoRetain(o, e);
  }

  lemma RetriedIsOwned(o: Ownership)
    requires Sound(o)
    ensures o.resolution.Some? ==>
              exists x :: x in o.operations && x.id == o.resolution.value.awaiting && x.kind == o.resolution.value.phase
  {
    if o.resolution.Some? {
      FindIs(o.operations, o.resolution.value.awaiting);
    }
  }

  lemma NewRetryIsNoRetain(o: Ownership, e: Event)
    requires Enabled(o, e) && Step(o, e).resolution != o.resolution
    ensures !e.Retain?
  {
  }

  // ----- the diagnostic -----

  /** Something stays unresolved from before the first event to after the last. */
  ghost predicate UnresolvedThroughout(o: Ownership, events: seq<Event>)
    requires ContractualRun(o, events)
    decreases |events|
  {
    o.operations != [] && (events == [] || UnresolvedThroughout(Step(o, events[0]), events[1..]))
  }

  ghost function Diagnostics(o: Ownership, events: seq<Event>): nat
    requires ContractualRun(o, events)
    decreases |events|
  {
    if events == [] then 0
    else
      var given := if events[0].TakeDiagnostic? && EmitsDiagnostic(o) then 1 else 0;
      given + Diagnostics(Step(o, events[0]), events[1..])
  }

  lemma DiagnosticStays(o: Ownership, e: Event)
    requires Sound(o) && Contractual(o, e) && Step(o, e).operations != []
    ensures Step(o, e).diagnosticEmitted <==> o.diagnosticEmitted || (e.TakeDiagnostic? && EmitsDiagnostic(o))
  {
    match e
    case ResolveBeforeStart => RequestKeeps(o);
    case RetryReturns(r) =>
      if IsCompleted(r) {
        var id := o.resolution.value.awaiting;
        FindIs(o.operations, id);
        ReleaseKeeps(o, id);
        ResumeKeeps(Release(o, id), o.resolution.value.phase, id);
      }
    case _ =>
  }

  /** Main result: while anything stays unresolved, the startup diagnostic is given at most
      once; and once all is resolved, the next one may be given again. */
  lemma {:induction false} OneDiagnosticPerEpisode(o: Ownership, events: seq<Event>)
    requires Sound(o) && ContractualRun(o, events) && UnresolvedThroughout(o, events)
    ensures Diagnostics(o, events) <= if o.diagnosticEmitted then 0 else 1
    decreases |events|
  {
    hide Sound, Step;
    if events != [] {
      StepKeeps(o, events[0]);
      DiagnosticStays(o, events[0]);
      OneDiagnosticPerEpisode(Step(o, events[0]), events[1..]);
    }
  }

  // ----- progress -----

  /** The resolution when every retry it makes completes. */
  ghost function CompleteAll(o: Ownership): Ownership
    requires Sound(o)
    decreases |o.operations|
  {
    if o.resolution.None? then o
    else
      var r := Result(true, false, false, None);
      RetryKeeps(o, r);
      RemoveIs(o.operations, o.resolution.value.awaiting);
      CompleteAll(AfterRetry(o, r))
  }

  /** If nothing is settling and every retry completes, one resolution empties the set and
      says so. */
  lemma {:induction false} CompletedRetriesResolve(o: Ownership)
    requires Sound(o) && (forall x | x in o.operations :: !x.settling) && o.resolution.Some?
    requires o.resolution.value.phase.Flush? || forall x | x in o.operations :: x.kind.Shutdown?
    ensures var after := CompleteAll(o);
            after.operations == [] && after.resolution.None? && after.answers == o.answers + [true]
    decreases |o.operations|
  {
    var r := Result(true, false, false, None);
    var id, phase := o.resolution.value.awaiting, o.resolution.value.phase;
    RetryKeeps(o, r);
    RemoveIs(o.operations, id);
    ReleaseKeeps(o, id);
    ResumeKeeps(Release(o, id), phase, id);
    ResumeFindsWork(Release(o, id), phase, id);
    var next := AfterRetry(o, r);
    if next.resolution.Some? {
      CompletedRetriesResolve(next);
    }
  }

  /** With nothing settling, a resumed resolution stops only when nothing is left. */
  lemma ResumeFindsWork(o: Ownership, phase: Kind, last: int)
    requires Kept(o) && (forall x | x in o.operations :: !x.settling)
    requires forall x | x in o.operations && x.kind == phase :: last < x.id
    requires phase.Flush? || forall x | x in o.operations :: x.kind.Shutdown?
    ensures Resume(o, phase, last).resolution.None? ==> o.operations == []
    ensures Resume(o, phase, last).resolution.Some? && Resume(o, phase, last).resolution.value.phase.Shutdown? ==>
              forall x | x in o.operations :: x.kind.Shutdown?
    decreases if phase.Flush? then 1 else 0
  {
    assert o.operations != [] ==> o.operations[0] in o.operations;
    NextOfIs(o.operations, phase, last);
    if NextOf(o.operations, phase, last).None? && phase.Flush? {
      ResumeFindsWork(o, Shutdown, -1);
    }
  }

  /** From every state a run leads to, some run leaves nothing unresolved: settlements settle,
      retries complete, and calls ask for them. */
  lemma {:induction false} AllCanBeResolved(o: Ownership) returns (events: seq<Event>)
    requires Sound(o)
    ensures ContractualRun(o, events) && Run(o, events).operations == []
    decreases |o.operations|, if o.resolution.Some? then 0 else if o.unread.None? then 1 else 2
  {
    hide Sound, Kept, Resume;
    if o.operations == [] {
      return [];
    }
    var e := Towards(o);
    var rest := AllCanBeResolved(Step(o, e));
    events := [e] + rest;
    assert events[1..] == rest;
  }

  /** Something has left the set; or as much is left, and the resolution has come closer to
      retrying it. */
  ghost predicate Closer(o: Ownership, after: Ownership) {
    || |after.operations| < |o.operations|
    || (|after.operations| == |o.operations| && after.resolution.Some? && o.resolution.None?)
    || (|after.operations| == |o.operations| && o.unread.Some? && after.unread.None? && o.resolution.None?)
  }

  lemma SettlementIsCloser(o: Ownership, x: Operation)
    requires Sound(o) && x in o.operations && x.settling
    ensures x.pending.Some? && Closer(o, Step(o, Settles(x.id, x.pending.value, true)))
  {
    FindIs(o.operations, x.id);
    RemoveIs(o.operations, x.id);
  }

  lemma RetryIsCloser(o: Ownership)
    requires Sound(o) && o.resolution.Some?
    ensures Closer(o, Step(o, RetryReturns(Result(true, false, false, None))))
  {
    hide AfterRetry;
    RetryKeeps(o, Result(true, false, false, None));
    RemoveIs(o.operations, o.resolution.value.awaiting);
  }

  lemma RequestIsCloser(o: Ownership)
    requires Sound(o) && o.operations != [] && (forall x | x in o.operations :: !x.settling)
    requires o.resolution.None? && o.unread.None?
    ensures Closer(o, Step(o, ResolveBeforeStart))
  {
    hide Resume;
    var asked := o.(callers := o.callers + 1);
    ResumeKeeps(asked, Flush, -1);
    ResumeFindsWork(asked, Flush, -1);
  }

  /** A step towards that. */
  lemma Towards(o: Ownership) returns (e: Event)
    requires Sound(o) && o.operations != []
    ensures Contractual(o, e) && Sound(Step(o, e)) && Closer(o, Step(o, e))
  {
    hide Sound, Step, Closer;
    if x :| x in o.operations && x.settling {
      SettlementIsCloser(o, x);
      e := Settles(x.id, x.pending.value, true);
    } else if o.resolution.Some? {
      RetryIsCloser(o);
      e := RetryReturns(Result(true, false, false, None));
    } else if o.unread.Some? {
      ReturnIsCloser(o);
      e := ResolutionReturns;
    } else {
      RequestIsCloser(o);
      e := ResolveBeforeStart;
    }
    StepKeeps(o, e);
  }

  lemma ReturnIsCloser(o: Ownership)
    requires o.unread.Some? && o.resolution.None?
    ensures Closer(o, Step(o, ResolutionReturns))
  {
  }

  // ----- operations owned for ever -----

  ghost predicate Filed(o: Ownership) {
    && Increasing(o.operations) && (forall x | x in o.operations :: x.id < o.next)
    && (o.resolution.Some? ==> o.resolution.value.awaiting < o.next)
  }

  /** The operation is settling, has no settlement to wait for, and no retry under way. */
  ghost predicate Stuck(o: Ownership, id: nat) {
    && Filed(o) && Find(o.operations, id).Some?
    && Find(o.operations, id).value.settling && Find(o.operations, id).value.pending.None?
    && (o.resolution.Some? ==> o.resolution.value.awaiting != id)
  }

  lemma SoundIsFiled(o: Ownership)
    requires Sound(o)
    ensures Filed(o)
  {
    if o.resolution.Some? {
      FindIs(o.operations, o.resolution.value.awaiting);
    }
  }

  lemma ResumeIsStuck(o: Ownership, phase: Kind, last: int, id: nat)
    requires Filed(o) && Find(o.operations, id).Some?
    requires Find(o.operations, id).value.settling && Find(o.operations, id).value.pending.None?
    ensures var after := Resume(o, phase, last);
            Stuck(after, id) && (after.answers == o.answers || after.answers == o.answers + [false])
    decreases if phase.Flush? then 1 else 0
  {
    NextOfIs(o.operations, phase, last);
    match NextOf(o.operations, phase, last) {
      case Some(op) => FindIs(o.operations, op.id);
      case None =>
        if phase.Flush? {
          ResumeIsStuck(o, Shutdown, -1, id);
        }
    }
  }

  lemma RetainStaysStuck(o: Ownership, kind: Kind, r: Result, id: nat)
    requires Stuck(o, id)
    ensures Stuck(AfterRetain(o, kind, r), id) && AfterRetain(o, kind, r).answers == o.answers
  {
    if !IsCompleted(r) {
      var after := AfterRetain(o, kind, r);
      forall i | 0 <= i < |o.operations| ensures o.operations[i].id < o.next {
        assert o.operations[i] in o.operations;
      }
      FindIs(o.operations, id);
      FindIs(after.operations, id);
      assert Find(o.operations, id).value in after.operations;
    }
  }

  lemma ReleaseStaysStuck(o: Ownership, other: nat, id: nat)
    requires Stuck(o, id) && other != id
    ensures Filed(Release(o, other)) && Find(Release(o, other).operations, id) == Find(o.operations, id)
  {
    FindIs(o.operations, id);
    RemoveIs(o.operations, other);
    FindIs(Remove(o.operations, other), id);
  }

  lemma ReplaceStaysStuck(o: Ownership, op: Operation, id: nat)
    requires Stuck(o, id) && op.id != id && Find(o.operations, op.id).Some?
    ensures Filed(o.(operations := Replace(o.operations, op)))
    ensures Find(Replace(o.operations, op), id) == Find(o.operations, id)
  {
    FindIs(o.operations, id);
    FindIs(o.operations, op.id);
    ReplaceIs(o.operations, op);
    FindIs(Replace(o.operations, op), id);
  }

  lemma RetryStaysStuck(o: Ownership, r: Result, id: nat)
    requires Stuck(o, id) && o.resolution.Some?
    ensures var after := AfterRetry(o, r);
            Stuck(after, id) && (after.answers == o.answers || after.answers == o.answers + [false])
  {
    hide Resume;
    var other := o.resolution.value.awaiting;
    var awaited := Find(o.operations, other);
    if IsCompleted(r) {
      ReleaseStaysStuck(o, other, id);
      ResumeIsStuck(Release(o, other), o.resolution.value.phase, other, id);
    } else if awaited.Some? {
      FindIs(o.operations, other);
      ReplaceStaysStuck(o, Observed(awaited.value, r), id);
    }
  }

  lemma StaysStuck(o: Ownership, e: Event, id: nat)
    requires Stuck(o, id) && Enabled(o, e)
    ensures var after := Step(o, e);
            Stuck(after, id) && (after.answers == o.answers || after.answers == o.answers + [false])
  {
    hide Resume, AfterRetain, AfterRetry, Release, Replace;
    match e
    case Retain(kind, r) => RetainStaysStuck(o, kind, r, id);
    case ResolveBeforeStart =>
      if o.resolution.None? && o.unread.None? {
        ResumeIsStuck(o.(callers := o.callers + 1), Flush, -1, id);
      }
    case RetryReturns(r) => RetryStaysStuck(o, r, id);
    case Settles(other, settlement, completed) =>
      var op := Find(o.operations, other);
      if op.Some? && op.value.pending == Some(settlement) {
        FindIs(o.operations, other);
        ReleaseStaysStuck(o, other, id);
        ReleaseTouches(o, other);
        ReplaceStaysStuck(o, op.value.(settling := false, pending := None), id);
      }
    case _ =>
  }

  lemma ReleaseTouches(o: Ownership, id: nat)
    ensures var after := Release(o, id); after.resolution == o.resolution && after.answers == o.answers
  {
  }

  /** Main result: whatever happens, contract or not, such an operation stays owned, and every
      later answer is that a start may not go on. */
  lemma {:induction false} StuckForGood(o: Ownership, events: seq<Event>, id: nat)
    requires Stuck(o, id) && EnabledRun(o, events)
    ensures var after := Run(o, events);
            && Stuck(after, id) && o.answers <= after.answers
            && forall k | |o.answers| <= k < |after.answers| :: !after.answers[k]
    decreases |events|
  {
    hide Stuck, Step;
    if events != [] {
      StaysStuck(o, events[0], id);
      StuckForGood(Step(o, events[0]), events[1..], id);
    }
  }

  ghost predicate OwnedForEver(o: Ownership, id: nat) {
    forall events | EnabledRun(o, events) :: Find(Run(o, events).operations, id).Some?
  }

  lemma StuckIsOwned(o: Ownership, id: nat)
    requires Stuck(o, id)
    ensures OwnedForEver(o, id)
  {
    forall events | EnabledRun(o, events) ensures Find(Run(o, events).operations, id).Some? {
      StuckForGood(o, events, id);
    }
  }

  lemma SoundIsNotForEver(o: Ownership, id: nat)
    requires Sound(o)
    ensures !OwnedForEver(o, id)
  {
    var events := AllCanBeResolved(o);
    assert Find([], id) == None;
    assert Find(Run(o, events).operations, id).None?;
  }

  /** Main result: a retained operation is owned for ever if and only if its result timed out
      without a settlement. */
  lemma RetainedForEverExactly(o: Ownership, kind: Kind, r: Result)
    requires Sound(o)
    ensures OwnedForEver(Step(o, Retain(kind, r)), o.next) <==> r.timedOut && r.settlement.None?
  {
    hide OwnedForEver, Run, EnabledRun, AfterRetain, Find, Sound;
    var after := Step(o, Retain(kind, r));
    if r.timedOut && r.settlement.None? {
      RetainedIsStuck(o, kind, r);
      StuckIsOwned(after, o.next);
    } else {
      StepKeeps(o, Retain(kind, r));
      SoundIsNotForEver(after, o.next);
    }
  }

  lemma RetainedIsStuck(o: Ownership, kind: Kind, r: Result)
    requires Sound(o) && r.timedOut && r.settlement.None?
    ensures Stuck(AfterRetain(o, kind, r), o.next)
  {
    SoundIsFiled(o);
    var after := AfterRetain(o, kind, r);
    forall i | 0 <= i < |o.operations| ensures o.operations[i].id < o.next {
      assert o.operations[i] in o.operations;
    }
    var op := Observed(Operation(o.next, kind, false, None), r);
    assert op in after.operations;
    FindIs(after.operations, o.next);
  }

  /** Main result: and so is a retried one, by the result of its retry. */
  lemma RetriedForEverExactly(o: Ownership, r: Result)
    requires Sound(o) && o.resolution.Some?
    ensures OwnedForEver(Step(o, RetryReturns(r)), o.resolution.value.awaiting) <==> r.timedOut && r.settlement.None?
  {
    hide OwnedForEver, Run, EnabledRun, AfterRetry, Find, Sound;
    var after := Step(o, RetryReturns(r));
    if r.timedOut && r.settlement.None? {
      RetriedIsStuck(o, r);
      StuckIsOwned(after, o.resolution.value.awaiting);
    } else {
      StepKeeps(o, RetryReturns(r));
      SoundIsNotForEver(after, o.resolution.value.awaiting);
    }
  }

  lemma RetriedIsStuck(o: Ownership, r: Result)
    requires Sound(o) && o.resolution.Some? && r.timedOut && r.settlement.None?
    ensures Stuck(AfterRetry(o, r), o.resolution.value.awaiting)
  {
    SoundIsFiled(o);
    var id := o.resolution.value.awaiting;
    FindIs(o.operations, id);
    var op := Observed(Find(o.operations, id).value, r);
    ReplaceIs(o.operations, op);
    var after := AfterRetry(o, r);
    assert op in after.operations;
    FindIs(after.operations, id);
  }
}
