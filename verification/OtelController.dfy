/** The controller that owns one OpenTelemetry SDK: asynchronous start, bounded shutdown, late
    settlement and retry. Each segment between awaits is one step; steps of overlapping calls
    may come in any order. */
module OtelController {
  import opened Optional

  datatype Lifecycle = Idle | Starting | Started | Failed | ShuttingDown | ShutdownPending | ShutdownFailed | Shutdown

  /** A bounded operation completes, fails, or times out; only in the last case it runs on, and
      its settlement is promised. */
  datatype Result = Completed | Errored | TimedOut

  /** What starting the SDK can throw. A startup error has cleaned up already and reports how. */
  datatype StartError = Plain | Startup(cleanup: Option<Result>)

  datatype Factory = Built | Threw(error: StartError)

  datatype StartPhase = NotRunning | AwaitingStart | AwaitingCleanup(op: nat)

  datatype Observer = OfStartupCleanup | OfShutdown

  /** `inFlight` are the SDK shutdowns still running, `calls` how many the controller has
      begun, and `cleaned` says that one has completed without error. */
  datatype Controller = Controller(
    state: Lifecycle, sdk: bool, startPhase: StartPhase, awaiting: set<nat>, shutdownPromise: Option<nat>,
    pendingShutdown: Option<nat>, startupCleanup: Option<Result>, observers: map<nat, Observer>,
    factoryCalls: nat, created: bool, nextOp: nat, inFlight: set<nat>, calls: nat, cleaned: bool)

  const FRESH := Controller(Idle, false, NotRunning, {}, None, None, None, map[], 0, false, 0, {}, 0, false)

  datatype Event =
    | RequestStart(factory: Factory)
    | StartResolves
    | StartRejects(error: StartError)
    | CleanupReturns(result: Result)
    | RequestShutdown
    | ShutdownReturns(op: nat, result: Result)
    | Settles(op: nat, completed: bool)

  /** What can happen: a continuation runs only for an operation that is awaited, an operation
      without an SDK has nothing to wait for, and only a running operation settles late. */
  predicate Enabled(c: Controller, e: Event) {
    match e
    case RequestStart(_) => true
    case StartResolves => c.startPhase.AwaitingStart?
    case StartRejects(_) => c.startPhase.AwaitingStart?
    case CleanupReturns(result) => c.startPhase.AwaitingCleanup? && (c.startPhase.op in c.inFlight || result.Completed?)
    case RequestShutdown => true
    case ShutdownReturns(op, result) => op in c.awaiting && (op in c.inFlight || result.Completed?)
    case Settles(op, _) => op in c.inFlight && op in c.observers
  }

  // ----- start -----

  /** Calls the SDK's shutdown, if there is an SDK. */
  function BeginShutdown(c: Controller): Controller {
    c.(nextOp := c.nextOp + 1, inFlight := if c.sdk then c.inFlight + {c.nextOp} else c.inFlight,
       calls := if c.sdk then c.calls + 1 else c.calls)
  }

  function FinishFailedStart(c: Controller, op: nat, result: Result): Controller {
    var failed := c.(startupCleanup := Some(result), state := Failed, startPhase := NotRunning);
    match result
    case Completed => failed.(sdk := false, inFlight := c.inFlight - {op}, cleaned := true)
    case Errored => failed.(inFlight := c.inFlight - {op})
    case TimedOut => failed.(pendingShutdown := Some(op), observers := c.observers[op := OfStartupCleanup])
  }

  function StartThrew(c: Controller, error: StartError): Controller {
    match error
    case Plain => BeginShutdown(c).(startPhase := AwaitingCleanup(c.nextOp))
    case Startup(cleanup) =>
      var result := if cleanup.Some? then cleanup.value else Completed;
      var reported := c.(
        nextOp := c.nextOp + 1, inFlight := if result.TimedOut? then c.inFlight + {c.nextOp} else c.inFlight);
      FinishFailedStart(reported, c.nextOp, result)
  }

  function AfterStartRequest(c: Controller, factory: Factory): Controller {
    if !c.state.Idle? then c
    else
      var starting := c.(state := Starting, factoryCalls := c.factoryCalls + 1);
      match factory
      case Built => starting.(sdk := true, created := true, startPhase := AwaitingStart)
      case Threw(error) => StartThrew(starting, error)
  }

  // ----- shutdown -----

  function AfterShutdownRequest(c: Controller): Controller {
    if c.state.Shutdown? then c
    else if c.state.Failed? && c.startupCleanup == Some(Completed) then c
    else if c.state.ShuttingDown? && c.shutdownPromise.Some? then c
    else if c.pendingShutdown.Some? then c
    else
      BeginShutdown(c.(state := ShuttingDown, shutdownPromise := Some(c.nextOp), awaiting := c.awaiting + {c.nextOp}))
  }

  function ApplyShutdownResult(c: Controller, op: nat, result: Result): Controller {
    var returned := c.(awaiting := c.awaiting - {op}, shutdownPromise := None);
    match result
    case TimedOut => returned.(pendingShutdown := Some(op), state := ShutdownPending,
        observers := c.observers[op := OfShutdown])
    case Errored => returned.(state := ShutdownFailed, inFlight := c.inFlight - {op})
    case Completed => returned.(sdk := false, state := Shutdown, inFlight := c.inFlight - {op},
        cleaned := c.cleaned || op in c.inFlight)
  }

  function AfterSettlement(c: Controller, op: nat, completed: bool): Controller
    requires op in c.observers
  {
    var settled := c.(inFlight := c.inFlight - {op}, observers := c.observers - {op},
        cleaned := c.cleaned || completed);
    if c.pendingShutdown != Some(op) then settled
    else
      match c.observers[op]
      case OfStartupCleanup =>
        settled.(pendingShutdown := None, startupCleanup := Some(if completed then Completed else Errored),
                 sdk := c.sdk && !completed)
      case OfShutdown =>
        if completed then settled.(pendingShutdown := None, sdk := false, state := Shutdown)
        else settled.(pendingShutdown := None, state := ShutdownFailed)
  }

  function Step(c: Controller, e: Event): Controller
    requires Enabled(c, e)
  {
    match e
    case RequestStart(factory) => AfterStartRequest(c, factory)
    case StartResolves => c.(state := Started, startPhase := NotRunning)
    case StartRejects(error) => StartThrew(c, error)
    case CleanupReturns(result) => FinishFailedStart(c, c.startPhase.op, result)
    case RequestShutdown => AfterShutdownRequest(c)
    case ShutdownReturns(op, result) => ApplyShutdownResult(c, op, result)
    case Settles(op, completed) => AfterSettlement(c, op, completed)
  }

  // ----- the controller object -----

  class SdkController {
    var state: Lifecycle
    var sdk: bool
    var startPhase: StartPhase
    var awaiting: set<nat>
    var shutdownPromise: Option<nat>
    var pendingShutdown: Option<nat>
    var startupCleanupResult: Option<Result>
    var observers: map<nat, Observer>
    var factoryCalls: nat
    var created: bool
    var nextOp: nat
    var inFlight: set<nat>
    var calls: nat
    var cleaned: bool

    ghost function Value(): Controller
      reads this
    {
      Controller(state, sdk, startPhase, awaiting, shutdownPromise, pendingShutdown, startupCleanupResult, observers,
                 factoryCalls, created, nextOp, inFlight, calls, cleaned)
    }

    constructor ()
      ensures Value() == FRESH
    {
      state, sdk, startPhase, awaiting := Idle, false, NotRunning, {};
      shutdownPromise, pendingShutdown, startupCleanupResult, observers := None, None, None, map[];
      factoryCalls, created, nextOp, inFlight, calls, cleaned := 0, false, 0, {}, 0, false;
    }

    /** `start` and `startOnce` up to the first await. The result says whether the call went
        on to start the SDK, joined or repeated a start, or was refused. */
    method Start(factory: Factory) returns (accepted: bool)
      modifies this
      ensures Value() == Step(old(Value()), RequestStart(factory))
      ensures accepted <==>
                || old(state).Idle? || (old(state).Started? && old(sdk))
                || (old(state).Starting? && !old(startPhase).NotRunning?)
    {
      if state.Started? && sdk {
        return true;
      }
      if state.Starting? && !startPhase.NotRunning? {
        return true;
      }
      if !state.Idle? {
        return false;
      }
      state := Starting;
      factoryCalls := factoryCalls + 1;
      accepted := true;
      match factory
      case Built =>
        sdk, created := true, true;
        startPhase := AwaitingStart;
      case Threw(error) =>
        HandleStartError(error);
    }

    method ResolveStart()
      requires Enabled(Value(), StartResolves)
      modifies this
      ensures Value() == Step(old(Value()), StartResolves)
    {
      state := Started;
      startPhase := NotRunning;
    }

    method HandleStartError(error: StartError)
      modifies this
      ensures Value() == StartThrew(old(Value()), error)
    {
      if error.Startup? {
        var result := if error.cleanup.Some? then error.cleanup.value else Completed;
        var op := nextOp;
        nextOp := nextOp + 1;
        if result.TimedOut? {
          inFlight := inFlight + {op};
        }
        FinishStartupCleanup(op, result);
      } else {
        var op := CallShutdown();
        startPhase := AwaitingCleanup(op);
      }
    }

    method FinishStartupCleanup(op: nat, result: Result)
      modifies this
      ensures Value() == FinishFailedStart(old(Value()), op, result)
    {
      startupCleanupResult := Some(result);
      state := Failed;
      startPhase := NotRunning;
      if result.Completed? {
        sdk := false;
        cleaned := true;
      }
      if result.TimedOut? {
        pendingShutdown := Some(op);
        observers := observers[op := OfStartupCleanup];
      } else {
        inFlight := inFlight - {op};
      }
    }

    method CallShutdown() returns (op: nat)
      modifies this`nextOp, this`inFlight, this`calls
      ensures op == old(nextOp) && Value() == BeginShutdown(old(Value()))
    {
      op := nextOp;
      nextOp := nextOp + 1;
      if sdk {
        inFlight := inFlight + {op};
        calls := calls + 1;
      }
    }

    method RequestStop()
      modifies this
      ensures Value() == Step(old(Value()), RequestShutdown)
    {
      if state.Shutdown? || (state.Failed? && startupCleanupResult == Some(Completed)) {
        return;
      }
      if state.ShuttingDown? && shutdownPromise.Some? {
        return;
      }
      if pendingShutdown.Some? {
        return;
      }
      state := ShuttingDown;
      var op := CallShutdown();
      awaiting := awaiting + {op};
      shutdownPromise := Some(op);
    }

    method ReturnShutdown(op: nat, result: Result)
      requires Enabled(Value(), ShutdownReturns(op, result))
      modifies this
      ensures Value() == Step(old(Value()), ShutdownReturns(op, result))
    {
      awaiting := awaiting - {op};
      shutdownPromise := None;
      if result.TimedOut? {
        pendingShutdown := Some(op);
        state := ShutdownPending;
        observers := observers[op := OfShutdown];
        return;
      }
      if result.Completed? {
        cleaned := cleaned || op in inFlight;
        sdk := false;
        state := Shutdown;
      } else {
        state := ShutdownFailed;
      }
      inFlight := inFlight - {op};
    }

    method Settle(op: nat, completed: bool)
      requires Enabled(Value(), Settles(op, completed))
      modifies this
      ensures Value() == Step(old(Value()), Settles(op, completed))
    {
      var observer := observers[op];
      inFlight := inFlight - {op};
      observers := observers - {op};
      cleaned := cleaned || completed;
      if pendingShutdown != Some(op) {
        return;
      }
      pendingShutdown := None;
      if observer.OfStartupCleanup? {
        startupCleanupResult := Some(if completed then Completed else Errored);
        if completed {
          sdk := false;
        }
        return;
      }
      if !completed {
        state := ShutdownFailed;
        return;
      }
      sdk := false;
      state := Shutdown;
    }
  }

  // ----- runs in which shutdown waits for start to settle -----

  /** Shutdown is not requested while a start is unfinished. */
  predicate Orderly(c: Controller, e: Event) {
    Enabled(c, e) && (e.RequestShutdown? ==> !c.state.Starting?)
  }

  ghost predicate EnabledRun(c: Controller, events: seq<Event>)
    decreases |events|
  {
    events == [] || (Enabled(c, events[0]) && EnabledRun(Step(c, events[0]), events[1..]))
  }

  ghost predicate OrderlyRun(c: Controller, events: seq<Event>)
    ensures OrderlyRun(c, events) ==> EnabledRun(c, events)
    decreases |events|
  {
    events == [] || (Orderly(c, events[0]) && OrderlyRun(Step(c, events[0]), events[1..]))
  }

  ghost function Run(c: Controller, events: seq<Event>): Controller
    requires EnabledRun(c, events)
    decreases |events|
  {
    if events == [] then c else Run(Step(c, events[0]), events[1..])
  }

  /** The one operation that may be running, by the state. */
  function Operation(c: Controller): Option<nat> {
    if c.startPhase.AwaitingCleanup? then Some(c.startPhase.op)
    else if c.shutdownPromise.Some? then c.shutdownPromise
    else c.pendingShutdown
  }

  ghost predicate Sound(c: Controller) {
    && c.factoryCalls <= 1 && (c.state.Idle? ==> c.factoryCalls == 0 && !c.created)
    && (c.state.Starting? ==> c.factoryCalls == 1)
    && (c.state.Starting? <==> !c.startPhase.NotRunning?)
    && (c.state.ShuttingDown? <==> c.shutdownPromise.Some?)
    && c.awaiting == (if c.shutdownPromise.Some? then {c.shutdownPromise.value} else {})
    && (c.pendingShutdown.Some? <==>
         c.state.ShutdownPending? || (c.state.Failed? && c.startupCleanup == Some(TimedOut)))
    && (c.state.Failed? ==> c.startupCleanup.Some?)
    && c.observers == (if c.pendingShutdown.None? then map[]
                       else map[c.pendingShutdown.value := if c.state.Failed? then OfStartupCleanup else OfShutdown])
    && (forall op | op in c.inFlight :: Operation(c) == Some(op) && op < c.nextOp)
    && (c.pendingShutdown.Some? ==> c.pendingShutdown.value in c.inFlight)
    && (c.startPhase.AwaitingCleanup? || c.shutdownPromise.Some? ==> (c.sdk <==> Operation(c).value in c.inFlight))
    && (c.startPhase.AwaitingStart? || c.state.Started? || c.state.ShutdownPending? || c.state.ShutdownFailed? ==>
         c.sdk)
    && (c.sdk ==> c.created && !c.cleaned) && (c.created && !c.cleaned ==> c.sdk)
    && (c.cleaned ==> c.state.Shutdown? || (c.state.Failed? && c.startupCleanup == Some(Completed)))
    && (c.state.Failed? && c.startupCleanup == Some(Completed) ==> !c.sdk)
    && (c.state.Idle? || c.state.Shutdown? ==> !c.sdk)
  }

  // ----- what each step leaves -----

  /** What can happen, told by the promises alone: a shutdown returns only to the request that
      waits for it, and without an SDK it can only complete; only what has timed out settles. */
  lemma PossibleStepsAre(c: Controller, op: nat, result: Result, completed: bool, factory: Factory)
    requires Sound(c)
    ensures Enabled(c, ShutdownReturns(op, result)) <==> c.shutdownPromise == Some(op) && (c.sdk || result.Completed?)
    ensures Enabled(c, Settles(op, completed)) <==> c.pendingShutdown == Some(op)
    ensures Enabled(c, RequestStart(factory)) && Enabled(c, RequestShutdown)
    ensures Enabled(c, StartResolves) <==> c.startPhase.AwaitingStart?
    ensures Enabled(c, CleanupReturns(result)) <==> c.startPhase.AwaitingCleanup? && (c.sdk || result.Completed?)
  {
  }

  /** The steps of one side leave the promises of the other alone. */
  ghost predicate SameShutdowns(c: Controller, d: Controller) {
    c.awaiting == d.awaiting && c.shutdownPromise == d.shutdownPromise
  }

  ghost predicate SameStart(c: Controller, d: Controller) {
    c.startPhase == d.startPhase && c.factoryCalls == d.factoryCalls && c.created == d.created
  }

  ghost predicate SameOperations(c: Controller, d: Controller) {
    c.inFlight == d.inFlight && c.calls == d.calls && c.nextOp == d.nextOp && c.observers == d.observers
    && c.pendingShutdown == d.pendingShutdown && c.cleaned == d.cleaned
  }

  /** The SDK's shutdown is called once, if there is an SDK, under an identifier of its own. */
  ghost predicate Calls(c: Controller, d: Controller, sdk: bool) {
    && d.nextOp == c.nextOp + 1 && d.calls == c.calls + (if sdk then 1 else 0)
    && (forall op: nat :: op in d.inFlight <==> op in c.inFlight || (sdk && op == c.nextOp))
    && d.observers == c.observers && d.pendingShutdown == c.pendingShutdown && d.cleaned == c.cleaned
  }

  /** How a failed start ends: the result of its cleanup is kept, the SDK is kept unless it was
      cleaned up, and only a cleanup that timed out goes on if it ran, and is observed further. */
  ghost predicate CleanedUp(c: Controller, d: Controller, op: nat, result: Result, ran: bool) {
    && d.state.Failed? && d.startPhase.NotRunning? && d.startupCleanup == Some(result)
    && (d.sdk <==> c.sdk && !result.Completed?) && (d.cleaned <==> c.cleaned || result.Completed?)
    && (forall other: nat :: other in d.inFlight <==>
         if other == op then result.TimedOut? && ran else other in c.inFlight)
    && d.pendingShutdown == (if result.TimedOut? then Some(op) else c.pendingShutdown)
    && d.observers.Keys == c.observers.Keys + (if result.TimedOut? then {op} else {})
    && (forall other | other in d.observers ::
         d.observers[other] == if other == op && result.TimedOut? then OfStartupCleanup else c.observers[other])
  }

  /** A start error: a plain one has the SDK cleaned up, one that reports its own cleanup is
      taken at its word, and no report means that nothing is left. */
  ghost predicate StartFailsWith(c: Controller, d: Controller, error: StartError) {
    && SameShutdowns(c, d) && c.factoryCalls == d.factoryCalls && c.created == d.created
    && match error
       case Plain =>
         && d.startPhase == AwaitingCleanup(c.nextOp) && d.state == c.state && d.sdk == c.sdk
         && d.startupCleanup == c.startupCleanup && Calls(c, d, c.sdk)
       case Startup(None) =>
         CleanedUp(c, d, c.nextOp, Completed, true) && d.nextOp == c.nextOp + 1 && d.calls == c.calls
       case Startup(Some(result)) =>
         CleanedUp(c, d, c.nextOp, result, true) && d.nextOp == c.nextOp + 1 && d.calls == c.calls
  }

  lemma StartErrorTakesEffect(c: Controller, error: StartError)
    ensures StartFailsWith(c, StartThrew(c, error), error)
  {
    if error.Startup? {
      var result := if error.cleanup.Some? then error.cleanup.value else Completed;
      var reported := c.(
        nextOp := c.nextOp + 1, inFlight := if result.TimedOut? then c.inFlight + {c.nextOp} else c.inFlight);
      assert StartThrew(c, error) == FinishFailedStart(reported, c.nextOp, result);
      CleanedUpAfter(reported, c.nextOp, result);
      hide FinishFailedStart, StartThrew;
    }
  }

  lemma CleanedUpAfter(c: Controller, op: nat, result: Result)
    ensures var after := FinishFailedStart(c, op, result);
            && CleanedUp(c, after, op, result, op in c.inFlight) && SameShutdowns(c, after)
            && after.nextOp == c.nextOp && after.calls == c.calls
            && after.factoryCalls == c.factoryCalls && after.created == c.created
  {
  }

  /** A start request calls the factory only from idle; every other one changes nothing. */
  lemma StartRequestTakesEffect(c: Controller, factory: Factory)
    ensures var after := Step(c, RequestStart(factory));
            if c.state != Idle then after == c
            else match factory
              case Built =>
                && after.state == Starting && after.sdk && after.created && after.startPhase == AwaitingStart
                && after.factoryCalls == c.factoryCalls + 1 && after.startupCleanup == c.startupCleanup
                && SameShutdowns(c, after) && SameOperations(c, after)
              case Threw(error) =>
                StartFailsWith(c.(state := Starting, factoryCalls := c.factoryCalls + 1), after, error)
  {
    hide StartFailsWith, StartThrew;
    if factory.Threw? {
      StartErrorTakesEffect(c.(state := Starting, factoryCalls := c.factoryCalls + 1), factory.error);
    }
  }

  /** How a start that is going on can end. */
  lemma StartSettlesTakesEffect(c: Controller, error: StartError)
    ensures Enabled(c, StartResolves) ==>
              var after := Step(c, StartResolves);
              && after.state == Started && after.startPhase == NotRunning && after.sdk == c.sdk
              && after.factoryCalls == c.factoryCalls && after.created == c.created
              && after.startupCleanup == c.startupCleanup && SameShutdowns(c, after) && SameOperations(c, after)
    ensures Enabled(c, StartRejects(error)) ==> StartFailsWith(c, Step(c, StartRejects(error)), error)
  {
    hide StartFailsWith, StartThrew;
    StartErrorTakesEffect(c, error);
  }

  /** How the cleanup of a failed start ends. */
  lemma CleanupTakesEffect(c: Controller, result: Result)
    requires Enabled(c, CleanupReturns(result))
    ensures var after := Step(c, CleanupReturns(result));
            && CleanedUp(c, after, c.startPhase.op, result, c.startPhase.op in c.inFlight) && SameShutdowns(c, after)
            && after.nextOp == c.nextOp && after.calls == c.calls
            && after.factoryCalls == c.factoryCalls && after.created == c.created
  {
    CleanedUpAfter(c, c.startPhase.op, result);
  }

  /** A shutdown request that goes on leaves the controller shutting down and calls the SDK;
      it does not go on when all is cleaned up or something is still running. */
  lemma StopRequestTakesEffect(c: Controller)
    ensures var after := Step(c, RequestShutdown);
            if || c.state == Shutdown || (c.state == Failed && c.startupCleanup == Some(Completed))
               || (c.state == ShuttingDown && c.shutdownPromise != None) || c.pendingShutdown != None
            then after == c
            else
              && after.state == ShuttingDown && after.shutdownPromise == Some(c.nextOp) && after.sdk == c.sdk
              && (forall op: nat :: op in after.awaiting <==> op in c.awaiting || op == c.nextOp)
              && after.startupCleanup == c.startupCleanup && SameStart(c, after) && Calls(c, after, c.sdk)
  {
  }

  /** What a bounded shutdown leaves: shut down without an SDK, failed with it, or pending with
      it and observed further. */
  lemma ShutdownResultTakesEffect(c: Controller, op: nat, result: Result)
    requires Enabled(c, ShutdownReturns(op, result))
    ensures var after := Step(c, ShutdownReturns(op, result));
            && after.state == (match result case Completed => Shutdown case Errored => ShutdownFailed
                                            case TimedOut => ShutdownPending)
            && (after.sdk <==> c.sdk && result != Completed)
            && after.shutdownPromise == None
            && (forall other: nat :: other in after.awaiting <==> other in c.awaiting && other != op)
            && (forall other: nat :: other in after.inFlight <==>
                 other in c.inFlight && (other != op || result == TimedOut))
            && after.pendingShutdown == (if result == TimedOut then Some(op) else c.pendingShutdown)
            && (result != TimedOut ==> after.observers == c.observers)
            && (result == TimedOut ==> op in after.observers && after.observers[op] == OfShutdown
                                       && after.observers - {op} == c.observers - {op})
            && (after.cleaned <==> c.cleaned || (result == Completed && op in c.inFlight))
            && after.startupCleanup == c.startupCleanup && after.nextOp == c.nextOp && after.calls == c.calls
            && SameStart(c, after)
  {
  }

  /** What a late settlement leaves. Only that of the pending shutdown decides anything: a
      cleanup after a failed start changes its result, a shutdown the state, and either gives
      up the SDK if it completed. */
  lemma SettlementTakesEffect(c: Controller, op: nat, completed: bool)
    requires Enabled(c, Settles(op, completed))
    ensures var after := Step(c, Settles(op, completed));
            && after.inFlight == c.inFlight - {op} && after.observers == c.observers - {op}
            && (after.cleaned <==> c.cleaned || completed)
            && SameShutdowns(c, after) && SameStart(c, after) && after.nextOp == c.nextOp && after.calls == c.calls
            && if c.pendingShutdown != Some(op) then
                 && after.state == c.state && after.sdk == c.sdk && after.startupCleanup == c.startupCleanup
                 && after.pendingShutdown == c.pendingShutdown
               else
                 && after.pendingShutdown == None && (after.sdk <==> c.sdk && !completed)
                 && if c.observers[op] == OfShutdown then
                      && after.state == (if completed then Shutdown else ShutdownFailed)
                      && after.startupCleanup == c.startupCleanup
                    else
                      && after.state == c.state
                      && after.startupCleanup == Some(if completed then Completed else Errored)
  {
  }

  // ----- what orderly runs keep -----

  lemma StepKeeps(c: Controller, e: Event)
    requires Sound(c) && Orderly(c, e)
    ensures Sound(Step(c, e))
  {
    var after := Step(c, e);
    match e
    case RequestStart(factory) => StartRequestKeeps(c, factory);
    case StartRejects(error) => StartThrewKeeps(c, error);
    case _ =>
  }

  lemma StartThrewKeeps(c: Controller, error: StartError)
    requires c.inFlight == {} && c.awaiting == {}
    requires c.observers == map[] && c.shutdownPromise == c.pendingShutdown == None
    requires c.state.Starting? && c.factoryCalls == 1 && !c.cleaned && (c.sdk <==> c.created)
    ensures Sound(StartThrew(c, error))
  {
  }

  lemma StartRequestKeeps(c: Controller, factory: Factory)
    requires Sound(c)
    ensures Sound(AfterStartRequest(c, factory))
  {
    if c.state.Idle? && factory.Threw? {
      assert c.inFlight == {};
      StartThrewKeeps(c.(state := Starting, factoryCalls := c.factoryCalls + 1), factory.error);
    }
  }

  /** Main result: over every orderly run, whatever the order of timeouts, late settlements
      and retries, the factory is called at most once, at most one SDK shutdown is running,
      and the SDK is kept exactly from its creation until a cleanup completes. */
  lemma {:induction false} OrderlyRunsAreSound(c: Controller, events: seq<Event>)
    requires Sound(c) && OrderlyRun(c, events)
    ensures Sound(Run(c, events))
    decreases |events|
  {
    if events != [] {
      StepKeeps(c, events[0]);
      OrderlyRunsAreSound(Step(c, events[0]), events[1..]);
    }
  }

  lemma FreshRunsAreSafe(events: seq<Event>)
    requires OrderlyRun(FRESH, events)
    ensures var c := Run(FRESH, events);
            && c.factoryCalls <= 1 && (forall a, b | a in c.inFlight && b in c.inFlight :: a == b) && |c.inFlight| <= 1
            && (c.sdk <==> c.created && !c.cleaned)
  {
    OrderlyRunsAreSound(FRESH, events);
    var c := Run(FRESH, events);
    if c.inFlight != {} {
      var op :| op in c.inFlight;
      assert c.inFlight == {op};
    }
  }

  // ----- after the last step -----

  /** The SDK has been let go of: it is shut down, or its failed start has been cleaned up. */
  ghost predicate Released(c: Controller) {
    c.state.Shutdown? || (c.state.Failed? && c.startupCleanup == Some(Completed))
  }

  lemma ReleasedStays(c: Controller, e: Event)
    requires Sound(c) && Released(c) && Orderly(c, e)
    ensures Released(Step(c, e)) && Step(c, e).state == c.state
    ensures Step(c, e).calls == c.calls && Step(c, e).factoryCalls == c.factoryCalls
  {
  }

  /** Main result: a controller that is shut down, or whose failed start is cleaned up, stays
      so, and calls neither the factory nor the SDK's shutdown again. */
  lemma {:induction false} ReleasedForGood(c: Controller, events: seq<Event>)
    requires Sound(c) && Released(c) && OrderlyRun(c, events)
    ensures var after := Run(c, events);
            Released(after) && after.state == c.state && after.calls == c.calls && after.factoryCalls == c.factoryCalls
    decreases |events|
  {
    if events != [] {
      StepKeeps(c, events[0]);
      ReleasedStays(c, events[0]);
      ReleasedForGood(Step(c, events[0]), events[1..]);
    }
  }

  /** A cleanup that completed without error is the last: it releases the controller. */
  lemma CleanupIsFinal(c: Controller, events: seq<Event>)
    requires Sound(c) && OrderlyRun(c, events) && c.cleaned
    ensures Run(c, events).calls == c.calls
  {
    ReleasedForGood(c, events);
  }

  /** While nothing has completed, a requested shutdown reaches the SDK at once, unless one is
      running: no failure makes the controller give up the cleanup. */
  lemma CleanupIsRetried(c: Controller)
    requires Sound(c) && c.sdk && !c.state.Starting? && c.inFlight == {}
    ensures var after := Step(c, RequestShutdown); after.calls == c.calls + 1 && after.inFlight == {c.nextOp}
  {
  }

  // ----- why shutdown has to wait -----

  /** A shutdown requested while the SDK is starting lets the start go on: the controller then
      calls itself started, and a second request makes it shut the SDK down twice at the same
      time. */
  lemma ShutdownDuringStartBreaksOwnership(c: Controller)
    requires Sound(c) && c.startPhase.AwaitingStart?
    ensures var requested := Step(c, RequestShutdown);
            && EnabledRun(requested, [StartResolves, RequestShutdown])
            && Step(requested, StartResolves).state == Started
            && Run(requested, [StartResolves, RequestShutdown]).inFlight == {c.nextOp, c.nextOp + 1}
  {
    RunTwo(Step(c, RequestShutdown), StartResolves, RequestShutdown);
  }

  /** It also leaves state shutdown: the shutdown completes, then the start resolves. */
  lemma ShutdownDuringStartIsNotFinal(c: Controller)
    requires Sound(c) && c.startPhase.AwaitingStart?
    ensures var requested := Step(c, RequestShutdown);
            && EnabledRun(requested, [ShutdownReturns(c.nextOp, Completed), StartResolves])
            && Step(requested, ShutdownReturns(c.nextOp, Completed)).state == Shutdown
            && var after := Run(requested, [ShutdownReturns(c.nextOp, Completed), StartResolves]);
               after.state == Started && !after.sdk && after.created
  {
    RunTwo(Step(c, RequestShutdown), ShutdownReturns(c.nextOp, Completed), StartResolves);
  }

  /** While a failed start is cleaned up, a request shuts the SDK down a second time at once;
      if there is no SDK, the end of the cleanup takes the controller out of state shutdown. */
  lemma ShutdownDuringCleanupIsUnsafe(c: Controller)
    requires Sound(c) && c.startPhase.AwaitingCleanup?
    ensures var requested := Step(c, RequestShutdown);
            if c.sdk then requested.inFlight == {c.startPhase.op, c.nextOp} && c.startPhase.op != c.nextOp
            else
              && EnabledRun(requested, [ShutdownReturns(c.nextOp, Completed), CleanupReturns(Completed)])
              && Step(requested, ShutdownReturns(c.nextOp, Completed)).state == Shutdown
              && Run(requested, [ShutdownReturns(c.nextOp, Completed), CleanupReturns(Completed)]).state == Failed
  {
    if c.sdk {
      assert c.inFlight == {c.startPhase.op};
    } else {
      RunTwo(Step(c, RequestShutdown), ShutdownReturns(c.nextOp, Completed), CleanupReturns(Completed));
    }
  }

  lemma RunTwo(c: Controller, d: Event, e: Event)
    requires Enabled(c, d) && Enabled(Step(c, d), e)
    ensures EnabledRun(c, [d, e]) && Run(c, [d, e]) == Step(Step(c, d), e)
  {
    hide Step;
    assert [d, e][1..] == [e] && [e][1..] == [];
    var last := Step(Step(c, d), e);
    assert EnabledRun(last, []) && EnabledRun(Step(c, d), [e]);
    assert Run(Step(c, d), [e]) == Run(last, []);
  }

  /** Throughout the run at most one SDK shutdown is in flight, and state shutdown is never
      left. */
  ghost predicate Safe(c: Controller, events: seq<Event>)
    requires EnabledRun(c, events)
    decreases |events|
  {
    && (forall a, b | a in c.inFlight && b in c.inFlight :: a == b)
    && (events == [] ||
        ((c.state.Shutdown? ==> Step(c, events[0]).state.Shutdown?) && Safe(Step(c, events[0]), events[1..])))
  }

  /** Once there has been a start or a shutdown, nothing starts again. */
  lemma {:induction false} SettledRunsAreSafe(c: Controller, events: seq<Event>)
    requires Sound(c) && EnabledRun(c, events) && !c.state.Idle? && !c.state.Starting?
    ensures Safe(c, events)
    decreases |events|
  {
    if events != [] {
      StepKeeps(c, events[0]);
      NothingStartsAgain(c, events[0]);
      if c.state.Shutdown? {
        ReleasedStays(c, events[0]);
      }
      SettledRunsAreSafe(Step(c, events[0]), events[1..]);
    }
  }

  lemma NothingStartsAgain(c: Controller, e: Event)
    requires Sound(c) && Enabled(c, e) && !c.state.Idle? && !c.state.Starting?
    ensures !Step(c, e).state.Idle? && !Step(c, e).state.Starting?
  {
  }

  /** A run that is unsafe at its end or in its last step is unsafe. */
  lemma UnsafeTwo(c: Controller, d: Event, e: Event)
    requires EnabledRun(c, [d, e]) && Enabled(c, d) && Enabled(Step(c, d), e)
    requires var last := Step(Step(c, d), e);
             || (Step(c, d).state.Shutdown? && !last.state.Shutdown?)
             || exists a, b :: a in last.inFlight && b in last.inFlight && a != b
    ensures !Safe(c, [d, e])
  {
    hide Step;
    assert [d, e][1..] == [e] && [e][1..] == [];
    var last := Step(Step(c, d), e);
    assert EnabledRun(last, []) && EnabledRun(Step(c, d), [e]);
    assert Safe(Step(c, d), [e]) ==> Safe(last, []);
  }

  /** Main result: from any state a run can be in, asking for shutdown is safe whatever comes
      after if and only if the controller is not starting. */
  lemma RequestIsSafeExactly(c: Controller)
    requires Sound(c)
    ensures !c.state.Starting? <==>
            forall events | EnabledRun(Step(c, RequestShutdown), events) :: Safe(Step(c, RequestShutdown), events)
  {
    hide Sound, Step;
    var requested := Step(c, RequestShutdown);
    if !c.state.Starting? {
      RequestSettles(c);
      forall events | EnabledRun(requested, events) ensures Safe(requested, events) {
        SettledRunsAreSafe(requested, events);
      }
    } else if c.startPhase.AwaitingStart? {
      ShutdownDuringStartBreaksOwnership(c);
      RunTwo(requested, StartResolves, RequestShutdown);
      var last := Step(Step(requested, StartResolves), RequestShutdown);
      assert c.nextOp in last.inFlight && c.nextOp + 1 in last.inFlight;
      UnsafeTwo(requested, StartResolves, RequestShutdown);
    } else {
      StartingPhase(c);
      ShutdownDuringCleanupIsUnsafe(c);
      if c.sdk {
        assert EnabledRun(requested, []) && !Safe(requested, []);
      } else {
        RunTwo(requested, ShutdownReturns(c.nextOp, Completed), CleanupReturns(Completed));
        UnsafeTwo(requested, ShutdownReturns(c.nextOp, Completed), CleanupReturns(Completed));
      }
    }
  }

  lemma StartingPhase(c: Controller)
    requires Sound(c) && c.state.Starting?
    ensures c.startPhase.AwaitingStart? || c.startPhase.AwaitingCleanup?
  {
  }

  lemma RequestSettles(c: Controller)
    requires Sound(c) && !c.state.Starting?
    ensures var requested := Step(c, RequestShutdown);
            Sound(requested) && !requested.state.Idle? && !requested.state.Starting?
  {
    StepKeeps(c, RequestShutdown);
  }
}
