/** The composite of the three signal SDKs (traces, metrics, logs): they start in order, a
    failed start cleans up within a bound and may go on cleaning up in the background, and a
    shutdown releases exactly the SDKs whose own shutdown succeeded. */
module CompositeSdk {
  import opened BoundedMaps
  import opened Optional

  const SIGNALS: nat := 3

  datatype Lifecycle = Idle | Starting | Started | Failed | ShuttingDown | ShutdownFailed | Shutdown

  /** One call of `shutdownStartedSignalSdks` under way. */
  datatype Attempt = Attempt(sdks: seq<nat>, startup: bool)

  /** `starting` is the field of that name, which a shutdown may clear; `awaited` is the SDK
      whose start the running `start` call awaits, whatever happens to the field meanwhile, and
      `resuming` the SDK that has started and after which that call has yet to go on.
      `attempted` are the SDKs whose start was begun, `stopped` those whose shutdown succeeded,
      `calls` the SDK shutdowns begun, in order. */
  datatype Composite = Composite(
    state: Lifecycle, started: seq<nat>, starting: Option<nat>, awaited: Option<nat>, resuming: Option<nat>,
    boundedCleanup: Option<nat>, shutdownPromise: Option<nat>, attempts: map<nat, Attempt>, next: nat,
    attempted: set<nat>, stopped: set<nat>, calls: seq<nat>)

  const FRESH := Composite(Idle, [], None, None, None, None, None, map[], 0, {}, {}, [])

  datatype Event =
    | RequestStart
    | SignalStarted
    | StartResumes
    | SignalFailed
    | CleanupTimesOut
    | RequestShutdown
    | AttemptSettles(id: nat, outcomes: seq<bool>)

  predicate Enabled(c: Composite, e: Event) {
    match e
    case RequestStart => true
    case SignalStarted => c.awaited.Some?
    case StartResumes => c.resuming.Some?
    case SignalFailed => c.awaited.Some?
    case CleanupTimesOut => c.boundedCleanup.Some?
    case RequestShutdown => true
    case AttemptSettles(id, outcomes) => id in c.attempts && |outcomes| == |c.attempts[id].sdks|
  }

  function Reversed(s: seq<nat>): seq<nat> {
    if s == [] then [] else Reversed(s[1..]) + [s[0]]
  }

  /** `listOwnedSignalSdks`: the youngest first. */
  function ListOwned(c: Composite): seq<nat> {
    Reversed(if c.starting.Some? && c.starting.value !in c.started then c.started + [c.starting.value] else c.started)
  }

  function StartSignal(c: Composite, sdk: nat): Composite {
    c.(starting := Some(sdk), awaited := Some(sdk), attempted := c.attempted + {sdk})
  }

  function BeginAttempt(c: Composite, startup: bool): Composite {
    c.(attempts := c.attempts[c.next := Attempt(ListOwned(c), startup)], next := c.next + 1,
        calls := c.calls + ListOwned(c))
  }

  /** `releaseSignalSdk`. */
  function Release(c: Composite, sdk: nat): Composite {
    c.(started := Without(c.started, sdk), starting := if c.starting == Some(sdk) then None else c.starting,
       stopped := c.stopped + {sdk})
  }

  function ReleaseFulfilled(c: Composite, sdks: seq<nat>, outcomes: seq<bool>): Composite
    requires |sdks| == |outcomes|
    decreases |sdks|
  {
    if sdks == [] then c
    else ReleaseFulfilled(if outcomes[0] then Release(c, sdks[0]) else c, sdks[1..], outcomes[1..])
  }

  predicate AllFulfilled(outcomes: seq<bool>) {
    forall i | 0 <= i < |outcomes| :: outcomes[i]
  }

  function FirstFailure(sdks: seq<nat>, outcomes: seq<bool>): Option<nat>
    requires |sdks| == |outcomes|
    decreases |sdks|
  {
    if sdks == [] then None else if !outcomes[0] then Some(sdks[0]) else FirstFailure(sdks[1..], outcomes[1..])
  }

  /** A failure is reported exactly when some shutdown failed, and it is the first listed. */
  lemma {:induction false} FirstFailureIs(sdks: seq<nat>, outcomes: seq<bool>)
    requires |sdks| == |outcomes|
    ensures FirstFailure(sdks, outcomes).None? <==> AllFulfilled(outcomes)
    ensures FirstFailure(sdks, outcomes).Some? ==>
              exists i ::
                && 0 <= i < |sdks| && !outcomes[i] && sdks[i] == FirstFailure(sdks, outcomes).value
                && forall k | 0 <= k < i :: outcomes[k]
    decreases |sdks|
  {
    if sdks != [] {
      if !outcomes[0] {
        assert sdks[0] == FirstFailure(sdks, outcomes).value;
      } else {
        FirstFailureIs(sdks[1..], outcomes[1..]);
        if FirstFailure(sdks, outcomes).Some? {
          var i :| 0 <= i < |sdks[1..]| && !outcomes[1..][i] && sdks[1..][i] == FirstFailure(sdks, outcomes).value
                   && forall k | 0 <= k < i :: outcomes[1..][k];
          assert !outcomes[i + 1] && sdks[i + 1] == FirstFailure(sdks, outcomes).value;
          assert forall k | 0 <= k < i + 1 :: k == 0 || outcomes[k] == outcomes[1..][k - 1];
        } else {
          assert forall k | 0 <= k < |outcomes| :: k == 0 || outcomes[k] == outcomes[1..][k - 1];
        }
      }
    }
  }

  /** The end of `startSignalSdk`. */
  function AfterSignalStarted(c: Composite): Composite
    requires c.awaited.Some?
  {
    c.(started := c.started + [c.awaited.value], starting := None, awaited := None, resuming := c.awaited)
  }

  /** `start` goes on with the next SDK, or is done. */
  function AfterResuming(c: Composite): Composite
    requires c.resuming.Some?
  {
    if c.resuming.value + 1 < SIGNALS then StartSignal(c.(resuming := None), c.resuming.value + 1)
    else c.(resuming := None, state := Started)
  }

  function AfterSettling(c: Composite, id: nat, outcomes: seq<bool>): Composite
    requires id in c.attempts && |outcomes| == |c.attempts[id].sdks|
  {
    var released := ReleaseFulfilled(c, c.attempts[id].sdks, outcomes).(attempts := c.attempts - {id});
    if c.attempts[id].startup then
      if c.boundedCleanup == Some(id) then released.(state := Failed, boundedCleanup := None) else released
    else
      released.(state := if AllFulfilled(outcomes) then Shutdown else ShutdownFailed,
                shutdownPromise := if c.shutdownPromise == Some(id) then None else c.shutdownPromise)
  }

  function Step(c: Composite, e: Event): Composite
    requires Enabled(c, e)
  {
    match e
    case RequestStart => if c.state.Idle? then StartSignal(c.(state := Starting), 0) else c
    case SignalStarted => AfterSignalStarted(c)
    case StartResumes => AfterResuming(c)
    case SignalFailed => BeginAttempt(c, true).(boundedCleanup := Some(c.next), awaited := None)
    case CleanupTimesOut => c.(state := Failed, boundedCleanup := None)
    case RequestShutdown =>
      if c.state.Shutdown? || (c.state.ShuttingDown? && c.shutdownPromise.Some?) then c
      else BeginAttempt(c, false).(state := ShuttingDown, shutdownPromise := Some(c.next))
    case AttemptSettles(id, outcomes) => AfterSettling(c, id, outcomes)
  }

  // ----- the composite object -----

  class CompositeOtelSignalSdk {
    var state: Lifecycle
    var started: seq<nat>
    var starting: Option<nat>
    var awaited: Option<nat>
    var resuming: Option<nat>
    var boundedCleanup: Option<nat>
    var shutdownPromise: Option<nat>
    var attempts: map<nat, Attempt>
    var next: nat
    var attempted: set<nat>
    var stopped: set<nat>
    var calls: seq<nat>

    ghost function Value(): Composite
      reads this
    {
      Composite(state, started, starting, awaited, resuming, boundedCleanup, shutdownPromise, attempts, next,
                attempted, stopped, calls)
    }

    constructor ()
      ensures Value() == FRESH
    {
      state, started, starting, awaited, resuming := Idle, [], None, None, None;
      boundedCleanup, shutdownPromise := None, None;
      attempts, next, attempted, stopped, calls := map[], 0, {}, {}, [];
    }

    method Start() returns (refused: bool)
      modifies this
      ensures Value() == Step(old(Value()), RequestStart)
      ensures refused <==> !old(state).Started? && !old(state).Idle?
    {
      if state.Started? {
        return false;
      }
      if !state.Idle? {
        return true;
      }
      state := Starting;
      StartSignalSdk(0);
      return false;
    }

    method StartSignalSdk(sdk: nat)
      modifies this`starting, this`awaited, this`attempted
      ensures Value() == StartSignal(old(Value()), sdk)
    {
      starting := Some(sdk);
      awaited := Some(sdk);
      attempted := attempted + {sdk};
    }

    method SignalSdkStarted()
      requires Enabled(Value(), SignalStarted)
      modifies this`started, this`starting, this`awaited, this`resuming
      ensures Value() == Step(old(Value()), SignalStarted)
    {
      started := started + [awaited.value];
      starting := None;
      resuming := awaited;
      awaited := None;
    }

    method ResumeStart()
      requires Enabled(Value(), StartResumes)
      modifies this
      ensures Value() == Step(old(Value()), StartResumes)
    {
      var sdk := resuming.value;
      resuming := None;
      if sdk + 1 < SIGNALS {
        StartSignalSdk(sdk + 1);
      } else {
        state := Started;
      }
    }

    method SignalSdkFailed()
      requires Enabled(Value(), SignalFailed)
      modifies this
      ensures Value() == Step(old(Value()), SignalFailed)
    {
      var id := ShutdownStartedSignalSdks(true);
      boundedCleanup := Some(id);
      awaited := None;
    }

    method ShutdownStartedSignalSdks(startup: bool) returns (id: nat)
      modifies this`attempts, this`next, this`calls
      ensures id == old(next) && Value() == BeginAttempt(old(Value()), startup)
    {
      var owned := ListOwnedSignalSdks();
      id := next;
      attempts := attempts[id := Attempt(owned, startup)];
      next := next + 1;
      calls := calls + owned;
    }

    method ListOwnedSignalSdks() returns (owned: seq<nat>)
      ensures owned == ListOwned(Value())
    {
      var signalSdks := started;
      if starting.Some? && starting.value !in signalSdks {
        signalSdks := signalSdks + [starting.value];
      }
      owned := [];
      var i := 0;
      while i < |signalSdks|
        invariant 0 <= i <= |signalSdks|
        invariant Reversed(signalSdks[i..]) + owned == Reversed(signalSdks)
      {
        assert signalSdks[i..][1..] == signalSdks[i + 1..];
        assert Reversed(signalSdks[i..]) + owned == Reversed(signalSdks[i + 1..]) + ([signalSdks[i]] + owned);
        owned := [signalSdks[i]] + owned;
        i := i + 1;
      }
    }

    method TimeOutCleanup()
      requires Enabled(Value(), CleanupTimesOut)
      modifies this
      ensures Value() == Step(old(Value()), CleanupTimesOut)
    {
      state := Failed;
      boundedCleanup := None;
    }

    method RequestStop()
      modifies this
      ensures Value() == Step(old(Value()), RequestShutdown)
    {
      if state.Shutdown? || (state.ShuttingDown? && shutdownPromise.Some?) {
        return;
      }
      state := ShuttingDown;
      var id := ShutdownStartedSignalSdks(false);
      shutdownPromise := Some(id);
    }

    method SettleAttempt(id: nat, outcomes: seq<bool>) returns (firstFailure: Option<nat>)
      requires Enabled(Value(), AttemptSettles(id, outcomes)) && Distinct(started)
      modifies this
      ensures Value() == Step(old(Value()), AttemptSettles(id, outcomes))
      ensures firstFailure == FirstFailure(old(attempts)[id].sdks, outcomes)
    {
      hide Without, ReleaseFulfilled, FirstFailure;
      var attempt := attempts[id];
      ReleasedOthers(Value(), attempt.sdks, outcomes);
      FirstFailureIs(attempt.sdks, outcomes);
      firstFailure := ReleaseSignalSdks(attempt.sdks, outcomes);
      attempts := attempts - {id};
      if attempt.startup {
        if boundedCleanup == Some(id) {
          state := Failed;
          boundedCleanup := None;
        }
        return;
      }
      state := if firstFailure.None? then Shutdown else ShutdownFailed;
      if shutdownPromise == Some(id) {
        shutdownPromise := None;
      }
    }

    /** Every listed SDK's shutdown has settled. The first failure is the one reported. */
    method ReleaseSignalSdks(sdks: seq<nat>, outcomes: seq<bool>) returns (firstFailure: Option<nat>)
      requires |sdks| == |outcomes| && Distinct(started)
      modifies this`started, this`starting, this`stopped
      ensures Value() == ReleaseFulfilled(old(Value()), sdks, outcomes)
      ensures firstFailure == FirstFailure(sdks, outcomes)
    {
      hide Release;
      ghost var target := ReleaseFulfilled(Value(), sdks, outcomes);
      firstFailure := None;
      var i := 0;
      while i < |outcomes|
        invariant 0 <= i <= |outcomes| && Distinct(started)
        invariant ReleaseFulfilled(Value(), sdks[i..], outcomes[i..]) == target
        invariant FirstFailure(sdks, outcomes) ==
                    if firstFailure.Some? then firstFailure else FirstFailure(sdks[i..], outcomes[i..])
      {
        assert sdks[i..][1..] == sdks[i + 1..] && outcomes[i..][1..] == outcomes[i + 1..];
        if outcomes[i] {
          ReleaseSignalSdk(sdks[i]);
        } else if firstFailure.None? {
          firstFailure := Some(sdks[i]);
        }
        i := i + 1;
      }
    }

    method ReleaseSignalSdk(sdk: nat)
      requires Distinct(started)
      modifies this`started, this`starting, this`stopped
      ensures Value() == Release(old(Value()), sdk) && Distinct(started)
    {
      WithoutKeeps(started, sdk);
      var index := 0;
      while index < |started| && started[index] != sdk
        invariant 0 <= index <= |started|
        invariant forall k | 0 <= k < index :: started[k] != sdk
      {
        index := index + 1;
      }
      WithoutIsSplice(started, sdk, index);
      if index < |started| {
        started := started[..index] + started[index + 1..];
      }
      if starting == Some(sdk) {
        starting := None;
      }
      stopped := stopped + {sdk};
    }
  }

  // ----- what releasing does -----

  function Owned(c: Composite): set<nat> {
    (set k | k in c.started) + if c.starting.Some? then {c.starting.value} else {}
  }

  /** Releasing touches nothing but the two ownership fields and the record of successes. */
  lemma {:induction false} ReleasedOthers(c: Composite, sdks: seq<nat>, outcomes: seq<bool>)
    requires |sdks| == |outcomes|
    ensures var r := ReleaseFulfilled(c, sdks, outcomes);
            r == c.(started := r.started, starting := r.starting, stopped := r.stopped)
    decreases |sdks|
  {
    if sdks != [] {
      ReleasedOthers(if outcomes[0] then Release(c, sdks[0]) else c, sdks[1..], outcomes[1..]);
    }
  }

  function Fulfilled(sdks: seq<nat>, outcomes: seq<bool>): set<nat>
    requires |sdks| == |outcomes|
    decreases |sdks|
  {
    if sdks == [] then {} else (if outcomes[0] then {sdks[0]} else {}) + Fulfilled(sdks[1..], outcomes[1..])
  }

  ghost predicate Increasing(s: seq<nat>) {
    forall i, j | 0 <= i < j < |s| :: s[i] < s[j]
  }

  lemma {:induction false} WithoutIncreases(s: seq<nat>, item: nat)
    requires Increasing(s)
    ensures Increasing(Without(s, item)) && forall k :: k in Without(s, item) <==> k in s && k != item
  {
    if s != [] {
      var rest := Without(s[1..], item);
      WithoutIncreases(s[1..], item);
      assert s == [s[0]] + s[1..];
      forall j | 0 <= j < |rest| ensures s[0] < rest[j] {
        assert rest[j] in rest && rest[j] in s[1..];
      }
      assert Increasing([s[0]] + rest);
    }
  }

  /** The SDKs are listed from the youngest to the oldest, each once. */
  lemma {:induction false} ReversedIs(s: seq<nat>)
    ensures |Reversed(s)| == |s| && forall i | 0 <= i < |s| :: Reversed(s)[i] == s[|s| - 1 - i]
    ensures forall k :: k in Reversed(s) <==> k in s
  {
    if s != [] {
      ReversedIs(s[1..]);
      assert s == [s[0]] + s[1..];
    }
  }

  ghost predicate Ordered(c: Composite) {
    Increasing(c.started) && (c.starting.Some? ==> forall k | k in c.started :: k < c.starting.value)
  }

  /** Shutdowns are called in the reverse of the starting order, once for each owned SDK. */
  lemma ListOwnedIs(c: Composite)
    requires Ordered(c)
    ensures forall k :: k in ListOwned(c) <==> k in Owned(c)
    ensures forall i, j | 0 <= i < j < |ListOwned(c)| :: ListOwned(c)[i] > ListOwned(c)[j]
  {
    var items :=
      if c.starting.Some? && c.starting.value !in c.started then c.started + [c.starting.value] else c.started;
    ReversedIs(items);
    assert Increasing(items) by {
      forall i | 0 <= i < |c.started| && c.starting.Some? ensures c.started[i] < c.starting.value {
        assert c.started[i] in c.started;
      }
    }
  }

  lemma {:induction false} ReleaseFulfilledIs(c: Composite, sdks: seq<nat>, outcomes: seq<bool>)
    requires |sdks| == |outcomes| && Ordered(c)
    ensures var r := ReleaseFulfilled(c, sdks, outcomes);
            && Ordered(r) && Owned(r) == Owned(c) - Fulfilled(sdks, outcomes)
            && r.stopped == c.stopped + Fulfilled(sdks, outcomes)
    decreases |sdks|
  {
    if sdks != [] {
      var next := if outcomes[0] then Release(c, sdks[0]) else c;
      if outcomes[0] {
        WithoutIncreases(c.started, sdks[0]);
      }
      assert Owned(next) == Owned(c) - if outcomes[0] then {sdks[0]} else {};
      ReleaseFulfilledIs(next, sdks[1..], outcomes[1..]);
    }
  }

  lemma {:induction false} FulfilledIs(sdks: seq<nat>, outcomes: seq<bool>)
    requires |sdks| == |outcomes|
    ensures forall k :: k in Fulfilled(sdks, outcomes) <==> exists i :: 0 <= i < |sdks| && sdks[i] == k && outcomes[i]
    decreases |sdks|
  {
    if sdks != [] {
      FulfilledIs(sdks[1..], outcomes[1..]);
      forall k
        ensures k in Fulfilled(sdks, outcomes) <==> exists i :: 0 <= i < |sdks| && sdks[i] == k && outcomes[i]
      {
        if k in Fulfilled(sdks[1..], outcomes[1..]) {
          var i :| 0 <= i < |sdks[1..]| && sdks[1..][i] == k && outcomes[1..][i];
          assert sdks[i + 1] == k && outcomes[i + 1];
        }
        if i :| 0 <= i < |sdks| && sdks[i] == k && outcomes[i] {
          assert i == 0 || (sdks[1..][i - 1] == k && outcomes[1..][i - 1]);
        }
      }
    }
  }

  // ----- what each step leaves -----

  ghost predicate SameStart(c: Composite, d: Composite) {
    && d.starting == c.starting && d.awaited == c.awaited && d.resuming == c.resuming && d.started == c.started
    && d.attempted == c.attempted
  }

  ghost predicate SameShutdowns(c: Composite, d: Composite) {
    && d.attempts == c.attempts && d.next == c.next && d.calls == c.calls && d.stopped == c.stopped
    && d.shutdownPromise == c.shutdownPromise
  }

  /** A round of shutdowns begins under an identifier of its own: one call for each SDK that is
      owned, the youngest first. */
  ghost predicate CallsOwnedOnce(c: Composite, d: Composite, startup: bool) {
    && d.next == c.next + 1 && d.stopped == c.stopped
    && (forall id: nat :: id in d.attempts <==> id in c.attempts || id == c.next)
    && (forall id | id in c.attempts && id != c.next :: d.attempts[id] == c.attempts[id])
    && c.next in d.attempts && d.attempts[c.next].startup == startup
    && d.calls == c.calls + d.attempts[c.next].sdks
    && (forall k :: k in d.attempts[c.next].sdks <==> k in c.started || c.starting == Some(k))
    && (forall i, j | 0 <= i < j < |d.attempts[c.next].sdks| :: d.attempts[c.next].sdks[i] > d.attempts[c.next].sdks[j])
  }

  /** A start begins the first SDK, from idle only, and each SDK that has started is followed by
      the next, the last by the composite being started. */
  lemma StartTakesEffect(c: Composite)
    ensures var after := Step(c, RequestStart);
            if c.state != Idle then after == c
            else
              && after.state == Starting && after.starting == after.awaited == Some(0)
              && after.attempted == c.attempted + {0} && after.started == c.started && after.resuming == c.resuming
              && after.boundedCleanup == c.boundedCleanup && SameShutdowns(c, after)
    ensures c.awaited != None ==>
              var after := Step(c, SignalStarted);
              && after.started == c.started + [c.awaited.value] && after.resuming == c.awaited
              && after.starting == after.awaited == None && after.state == c.state
              && after.attempted == c.attempted && after.boundedCleanup == c.boundedCleanup && SameShutdowns(c, after)
    ensures c.resuming != None ==>
              var after, last := Step(c, StartResumes), c.resuming.value >= 2;
              && after.resuming == None && after.started == c.started && after.boundedCleanup == c.boundedCleanup
              && after.state == (if last then Started else c.state) && SameShutdowns(c, after)
              && if last then
                   after.starting == c.starting && after.awaited == c.awaited && after.attempted == c.attempted
                 else
                   && after.starting == after.awaited == Some(c.resuming.value + 1)
                   && after.attempted == c.attempted + {c.resuming.value + 1}
  {
  }

  /** A failed start of an SDK ends the start and begins the bounded cleanup, which keeps the
      state; the composite has failed when the bound or the cleanup is over. */
  lemma FailureTakesEffect(c: Composite)
    requires Ordered(c)
    ensures c.awaited != None ==>
              var after := Step(c, SignalFailed);
              && after.state == c.state && after.boundedCleanup == Some(c.next) && after.awaited == None
              && after.started == c.started && after.starting == c.starting && after.resuming == c.resuming
              && after.attempted == c.attempted && after.shutdownPromise == c.shutdownPromise
              && CallsOwnedOnce(c, after, true)
    ensures c.boundedCleanup != None ==>
              var after := Step(c, CleanupTimesOut);
              && after.state == Failed && after.boundedCleanup == None && SameStart(c, after) && SameShutdowns(c, after)
  {
    ListOwnedIs(c);
  }

  /** A request changes nothing once shut down or while one is going on; every other one, the
      start going on or not, begins a round of shutdowns. */
  lemma RequestTakesEffect(c: Composite)
    requires Ordered(c)
    ensures var after := Step(c, RequestShutdown);
            if c.state == Shutdown || (c.state == ShuttingDown && c.shutdownPromise != None) then after == c
            else
              && after.state == ShuttingDown && after.shutdownPromise == Some(c.next)
              && after.boundedCleanup == c.boundedCleanup && SameStart(c, after) && CallsOwnedOnce(c, after, false)
  {
    ListOwnedIs(c);
  }

  /** A round settles: the SDKs whose shutdown succeeded are released. A requested shutdown then
      decides the state and gives up its promise, a cleanup only while its bound lasts. */
  lemma SettlingTakesEffect(c: Composite, id: nat, outcomes: seq<bool>)
    requires Ordered(c) && id in c.attempts && |outcomes| == |c.attempts[id].sdks|
    ensures var after, attempt := Step(c, AttemptSettles(id, outcomes)), c.attempts[id];
            && (forall k :: (k in after.started <==> k in c.started && !Succeeds(attempt.sdks, outcomes, k)))
            && after.starting == (if c.starting != None && Succeeds(attempt.sdks, outcomes, c.starting.value) then None
                                  else c.starting)
            && (forall k :: k in after.stopped <==> k in c.stopped || Succeeds(attempt.sdks, outcomes, k))
            && after.awaited == c.awaited && after.resuming == c.resuming && after.attempted == c.attempted
            && after.next == c.next && after.calls == c.calls && after.attempts == c.attempts - {id}
            && after.state == (if !attempt.startup then (if false in outcomes then ShutdownFailed else Shutdown)
                               else if c.boundedCleanup == Some(id) then Failed else c.state)
            && after.boundedCleanup == (if attempt.startup && c.boundedCleanup == Some(id) then None
                                        else c.boundedCleanup)
            && after.shutdownPromise == (if !attempt.startup && c.shutdownPromise == Some(id) then None
                                         else c.shutdownPromise)
  {
    hide ReleaseFulfilled, Fulfilled;
    var sdks := c.attempts[id].sdks;
    ReleasedOthers(c, sdks, outcomes);
    ReleasedMembers(c, sdks, outcomes);
  }

  /** The SDK is among those of the round whose shutdown succeeded. */
  ghost predicate Succeeds(sdks: seq<nat>, outcomes: seq<bool>, k: nat)
    requires |sdks| == |outcomes|
  {
    exists i :: 0 <= i < |sdks| && sdks[i] == k && outcomes[i]
  }

  lemma {:induction false} ReleasedMembers(c: Composite, sdks: seq<nat>, outcomes: seq<bool>)
    requires |sdks| == |outcomes| && Ordered(c)
    ensures var r := ReleaseFulfilled(c, sdks, outcomes);
            && (forall k :: (k in r.started <==> k in c.started && !Succeeds(sdks, outcomes, k)))
            && r.starting == (if c.starting != None && Succeeds(sdks, outcomes, c.starting.value) then None
                              else c.starting)
            && (forall k :: k in r.stopped <==> k in c.stopped || Succeeds(sdks, outcomes, k))
    decreases |sdks|
  {
    if sdks != [] {
      if outcomes[0] {
        WithoutIncreases(c.started, sdks[0]);
      }
      ReleasedMembers(if outcomes[0] then Release(c, sdks[0]) else c, sdks[1..], outcomes[1..]);
      forall k: nat
        ensures Succeeds(sdks, outcomes, k) <==> (sdks[0] == k && outcomes[0]) || Succeeds(sdks[1..], outcomes[1..], k)
      {
        SucceedsAfter(sdks, outcomes, k);
      }
    }
  }

  lemma SucceedsAfter(sdks: seq<nat>, outcomes: seq<bool>, k: nat)
    requires |sdks| == |outcomes| > 0
    ensures Succeeds(sdks, outcomes, k) <==> (sdks[0] == k && outcomes[0]) || Succeeds(sdks[1..], outcomes[1..], k)
  {
    if Succeeds(sdks[1..], outcomes[1..], k) {
      var i :| 0 <= i < |sdks[1..]| && sdks[1..][i] == k && outcomes[1..][i];
      assert sdks[i + 1] == k && outcomes[i + 1];
    }
    if i :| 0 <= i < |sdks| && sdks[i] == k && outcomes[i] {
      assert i == 0 || (sdks[1..][i - 1] == k && outcomes[1..][i - 1]);
    }
  }

  // ----- what every run keeps -----

  ghost predicate EnabledRun(c: Composite, events: seq<Event>)
    decreases |events|
  {
    events == [] || (Enabled(c, events[0]) && EnabledRun(Step(c, events[0]), events[1..]))
  }

  ghost function Run(c: Composite, events: seq<Event>): Composite
    requires EnabledRun(c, events)
    decreases |events|
  {
    if events == [] then c else Run(Step(c, events[0]), events[1..])
  }

  ghost predicate Untouched(c: Composite) {
    && c.attempted == c.stopped == {} && c.attempts == map[] && c.started == []
    && c.starting.None? && c.awaited.None? && c.resuming.None? && c.boundedCleanup.None?
  }

  /** Every SDK whose start was begun is owned until its own shutdown succeeds. */
  ghost predicate Held(c: Composite) {
    && Ordered(c) && c.attempted - c.stopped <= Owned(c) && (c.state.Idle? ==> Untouched(c))
    && (c.awaited.Some? ==>
          && c.awaited.value < SIGNALS && (c.starting.None? || c.starting == c.awaited)
          && forall k | k in c.started :: k < c.awaited.value)
    && (c.resuming.Some? ==>
          && c.awaited.None? && c.starting.None? && c.resuming.value < SIGNALS
          && forall k | k in c.started :: k <= c.resuming.value)
  }

  lemma SettlingIs(c: Composite, id: nat, outcomes: seq<bool>)
    requires Ordered(c) && id in c.attempts && |outcomes| == |c.attempts[id].sdks|
    ensures var after := AfterSettling(c, id, outcomes);
            var fulfilled := Fulfilled(c.attempts[id].sdks, outcomes);
            && Ordered(after) && Owned(after) == Owned(c) - fulfilled && after.stopped == c.stopped + fulfilled
            && after.attempted == c.attempted && after.awaited == c.awaited && after.resuming == c.resuming
            && after.calls == c.calls
            && after.attempts == c.attempts - {id}
            && (forall k | k in after.started :: k in c.started)
            && (after.starting.None? || after.starting == c.starting)
            && after.boundedCleanup == (if c.boundedCleanup == Some(id) && c.attempts[id].startup then None
                                        else c.boundedCleanup)
            && after.state == if c.attempts[id].startup then (if c.boundedCleanup == Some(id) then Failed else c.state)
                              else if AllFulfilled(outcomes) then Shutdown else ShutdownFailed
  {
    hide ReleaseFulfilled, Fulfilled;
    var sdks := c.attempts[id].sdks;
    ReleasedOthers(c, sdks, outcomes);
    ReleaseFulfilledIs(c, sdks, outcomes);
    ReleasedFewer(c, sdks, outcomes);
  }

  lemma {:induction false} ReleasedFewer(c: Composite, sdks: seq<nat>, outcomes: seq<bool>)
    requires |sdks| == |outcomes| && Ordered(c)
    ensures var r := ReleaseFulfilled(c, sdks, outcomes);
            && (forall k | k in r.started :: k in c.started) && (r.starting.None? || r.starting == c.starting)
    decreases |sdks|
  {
    if sdks != [] {
      if outcomes[0] {
        WithoutIncreases(c.started, sdks[0]);
        ReleasedFewer(Release(c, sdks[0]), sdks[1..], outcomes[1..]);
      } else {
        ReleasedFewer(c, sdks[1..], outcomes[1..]);
      }
    }
  }

  lemma StepHolds(c: Composite, e: Event)
    requires Held(c) && Enabled(c, e)
    ensures Held(Step(c, e)) && (e.RequestShutdown? ==> !Step(c, e).state.Idle?)
  {
    hide AfterSettling, ListOwned;
    if e.AttemptSettles? {
      SettlingIs(c, e.id, e.outcomes);
    } else if e.SignalStarted? {
      var after := AfterSignalStarted(c);
      assert forall k :: k in after.started <==> k in c.started || k == c.awaited.value;
      assert Ordered(after) by {
        assert forall i | 0 <= i < |c.started| :: c.started[i] in c.started;
      }
      assert forall k | k in Owned(c) :: k in after.started;
    }
  }

  /** Main result: over every run, a shutdown asked for at any time included, no SDK whose
      start was begun is ever forgotten before its own shutdown has succeeded. */
  lemma {:induction false} RunsHoldEverySdk(c: Composite, events: seq<Event>)
    requires Held(c) && EnabledRun(c, events)
    ensures Held(Run(c, events))
    decreases |events|
  {
    hide Held, Step;
    if events != [] {
      StepHolds(c, events[0]);
      RunsHoldEverySdk(Step(c, events[0]), events[1..]);
    }
  }

  lemma FreshRunsHoldEverySdk(events: seq<Event>)
    requires EnabledRun(FRESH, events)
    ensures var c := Run(FRESH, events);
            c.attempted - c.stopped <= Owned(c)
  {
    RunsHoldEverySdk(FRESH, events);
  }

  /** Nothing but what is to be shut down is owned, and a composite shut down owns nothing. */
  ghost predicate Exact(c: Composite) {
    Owned(c) == c.attempted - c.stopped && (c.state.Shutdown? ==> Owned(c) == {})
  }

  /** The running `start` call will still begin or receive an SDK. */
  predicate Starts(c: Composite) {
    c.awaited.Some? || (c.resuming.Some? && c.resuming.value + 1 < SIGNALS)
  }

  /** The SDKs before the given one have started in order, and nothing has been shut down or
      is being shut down. */
  ghost predicate InOrder(c: Composite, upTo: nat) {
    && c.attempts == map[] && c.stopped == {} && upTo <= SIGNALS
    && |c.started| == upTo && forall i | 0 <= i < upTo :: c.started[i] == i
  }

  /** While a start goes on nothing has been shut down, and every shutdown asked for since
      covers what is owned. */
  ghost predicate Sound(c: Composite) {
    && Ordered(c) && Exact(c) && (c.state.Idle? ==> Untouched(c))
    && (c.awaited.Some? ==>
          && c.state.Starting? && c.boundedCleanup.None? && c.resuming.None?
          && c.starting == c.awaited && InOrder(c, c.awaited.value) && c.awaited.value < SIGNALS)
    && (c.resuming.Some? ==> c.starting.None? && c.resuming.value < SIGNALS)
    && (Starts(c) && c.resuming.Some? ==>
          c.state.Starting? && c.boundedCleanup.None? && InOrder(c, c.resuming.value + 1))
    && (forall id, k | id in c.attempts && !c.attempts[id].startup && k in Owned(c) :: k in c.attempts[id].sdks)
  }

  /** Shutdown is not requested while a start goes on that will begin or receive an SDK. */
  predicate Orderly(c: Composite, e: Event) {
    Enabled(c, e) && (e.RequestShutdown? ==> !Starts(c))
  }

  ghost predicate OrderlyRun(c: Composite, events: seq<Event>)
    ensures OrderlyRun(c, events) ==> EnabledRun(c, events)
    decreases |events|
  {
    events == [] || (Orderly(c, events[0]) && OrderlyRun(Step(c, events[0]), events[1..]))
  }

  lemma SettlingKeeps(c: Composite, id: nat, outcomes: seq<bool>)
    requires Sound(c) && id in c.attempts && |outcomes| == |c.attempts[id].sdks|
    ensures Sound(AfterSettling(c, id, outcomes))
  {
    hide Ordered, Fulfilled, ReleaseFulfilled;
    SettlingIs(c, id, outcomes);
    FulfilledIs(c.attempts[id].sdks, outcomes);
    var after := AfterSettling(c, id, outcomes);
    assert !after.state.Idle?;
    if after.state.Shutdown? && !c.attempts[id].startup {
      assert AllFulfilled(outcomes);
      forall k | k in Owned(c) ensures k in Fulfilled(c.attempts[id].sdks, outcomes) {
        var i :| 0 <= i < |outcomes| && c.attempts[id].sdks[i] == k;
      }
    }
  }

  lemma SignalStartedKeeps(c: Composite)
    requires Sound(c) && Enabled(c, SignalStarted)
    ensures Sound(AfterSignalStarted(c))
  {
    var after := AfterSignalStarted(c);
    assert forall k :: k in after.started <==> k in c.started || k == c.awaited.value;
    assert c.attempted == c.attempted - c.stopped == Owned(c);
    assert Owned(after) == after.attempted;
  }

  lemma ResumingKeeps(c: Composite)
    requires Sound(c) && Enabled(c, StartResumes)
    ensures Sound(AfterResuming(c))
  {
    var after := AfterResuming(c);
    if Starts(c) {
      assert c.attempted == c.attempted - c.stopped == Owned(c);
      assert Owned(after) == after.attempted;
    }
  }

  lemma StepKeeps(c: Composite, e: Event)
    requires Sound(c) && Orderly(c, e)
    ensures Sound(Step(c, e))
  {
    hide AfterSettling, ListOwned, AfterSignalStarted, AfterResuming;
    match e
    case AttemptSettles(id, outcomes) => SettlingKeeps(c, id, outcomes);
    case SignalStarted => SignalStartedKeeps(c);
    case StartResumes => ResumingKeeps(c);
    case SignalFailed => ListOwnedIs(c);
    case RequestShutdown => ListOwnedIs(c);
    case RequestStart =>
      if c.state.Idle? {
        assert Owned(Step(c, e)) == {0} && Step(c, e).attempted == {0};
      }
    case CleanupTimesOut =>
  }

  /** Main result: over every run in which no shutdown is asked for while a start goes on,
      cleanups going on in the background included, the owned SDKs are exactly those whose
      start was begun and whose shutdown has not succeeded. */
  lemma {:induction false} RunsKeepOwnership(c: Composite, events: seq<Event>)
    requires Sound(c) && OrderlyRun(c, events)
    ensures Sound(Run(c, events))
    decreases |events|
  {
    hide Sound, Step;
    if events != [] {
      StepKeeps(c, events[0]);
      RunsKeepOwnership(Step(c, events[0]), events[1..]);
    }
  }

  lemma FreshIsSound()
    ensures Sound(FRESH)
  {
    assert Owned(FRESH) == {};
  }

  lemma FreshRunsKeepOwnership(events: seq<Event>)
    requires OrderlyRun(FRESH, events)
    ensures var c := Run(FRESH, events);
            Owned(c) == c.attempted - c.stopped && (c.state.Shutdown? ==> c.attempted <= c.stopped)
  {
    FreshIsSound();
    RunsKeepOwnership(FRESH, events);
    var c := Run(FRESH, events);
    assert forall k | k in c.attempted :: k in Owned(c) || k in c.stopped;
  }

  // ----- a shutdown asked for while a start goes on -----

  /** Once a start is over, none goes on again, and so every run is orderly. */
  lemma {:induction false} LaterRunsAreOrderly(c: Composite, events: seq<Event>)
    requires EnabledRun(c, events) && !Starts(c) && !c.state.Idle?
    ensures OrderlyRun(c, events)
    decreases |events|
  {
    if events != [] {
      var e := events[0];
      if e.AttemptSettles? {
        ReleasedOthers(c, c.attempts[e.id].sdks, e.outcomes);
      }
      LaterRunsAreOrderly(Step(c, e), events[1..]);
    }
  }

  /** The start of an SDK is awaited, whatever the state, and a shutdown can be asked for. */
  ghost predicate Awaiting(c: Composite) {
    && c.awaited.Some? && c.starting == c.awaited && c.resuming.None? && c.awaited.value < SIGNALS
    && InOrder(c, c.awaited.value) && (c.state.Starting? || c.state.ShutdownFailed?)
  }

  lemma RunThree(c: Composite, d: Event, e: Event, f: Event)
    requires Enabled(c, d) && Enabled(Step(c, d), e) && Enabled(Step(Step(c, d), e), f)
    ensures EnabledRun(c, [d, e]) && Run(c, [d, e]) == Step(Step(c, d), e)
    ensures EnabledRun(c, [d, e, f]) && Run(c, [d, e, f]) == Step(Step(Step(c, d), e), f)
  {
    hide Step, Enabled;
    RunTwo(c, d, e);
    RunTwo(Step(c, d), e, f);
    assert [d, e, f][1..] == [e, f];
  }

  lemma RunTwo(c: Composite, d: Event, e: Event)
    requires Enabled(c, d) && Enabled(Step(c, d), e)
    ensures EnabledRun(c, [d, e]) && Run(c, [d, e]) == Step(Step(c, d), e)
  {
    hide Step, Enabled;
    var second := Step(Step(c, d), e);
    assert [d, e][1..] == [e] && [e][1..] == [];
    assert EnabledRun(second, []) && EnabledRun(Step(c, d), [e]) && Run(Step(c, d), [e]) == Run(second, []);
  }

  /** Every shutdown of an attempt succeeds, or every one fails. */
  function AllEnd(c: Composite, id: nat, fulfilled: bool): Event
    requires id in c.attempts
  {
    AttemptSettles(id, seq(|c.attempts[id].sdks|, i => fulfilled))
  }

  lemma NothingOwned(c: Composite)
    ensures Owned(c) == {} ==> c.started == []
  {
    if c.started != [] {
      assert c.started[0] in Owned(c);
    }
  }

  /** A shutdown asked for now, all of whose calls succeed before the awaited start. */
  lemma RequestOvertakes(c: Composite)
    requires Awaiting(c)
    ensures var requested := Step(c, RequestShutdown);
            && c.next in requested.attempts && Enabled(requested, AllEnd(requested, c.next, true))
            && var settled := Step(requested, AllEnd(requested, c.next, true));
               && settled.state.Shutdown? && Owned(settled) == {} && settled.awaited == c.awaited
               && settled.resuming.None? && settled.started == [] && c.awaited.value in settled.stopped
               && Ordered(settled)
  {
    hide ListOwned, ReleaseFulfilled, Fulfilled;
    var requested := Step(c, RequestShutdown);
    var outcomes := seq(|ListOwned(c)|, i => true);
    assert Ordered(c) && Ordered(requested);
    ListOwnedIs(c);
    SettlingIs(requested, c.next, outcomes);
    FulfilledIs(ListOwned(c), outcomes);
    assert AllFulfilled(outcomes);
    forall k | k in Owned(c) ensures k in Fulfilled(ListOwned(c), outcomes) {
      var i :| 0 <= i < |ListOwned(c)| && ListOwned(c)[i] == k;
      assert outcomes[i];
    }
    assert Owned(requested) == Owned(c) && c.awaited.value in Owned(c);
    var settled := Step(requested, AllEnd(requested, c.next, true));
    NothingOwned(settled);
  }

  /** Main result: however far the start has come, the composite is then shut down, takes the
      awaited SDK back although that has been shut down, goes on to start the next one, and
      shuts the one taken back down again. */
  lemma ShutdownDuringStartIsNotFinal(c: Composite)
    requires Awaiting(c)
    ensures var requested := Step(c, RequestShutdown);
            && c.next in requested.attempts
            && var settled := AllEnd(requested, c.next, true);
               && EnabledRun(requested, [settled, SignalStarted, StartResumes])
               && Step(requested, settled).state.Shutdown? && Owned(Step(requested, settled)) == {}
               && EnabledRun(requested, [settled, SignalStarted])
               && var taken := Run(requested, [settled, SignalStarted]);
                  && c.awaited.value in Owned(taken) && c.awaited.value in taken.stopped && !Exact(taken)
                  && var after := Run(requested, [settled, SignalStarted, StartResumes]);
                     && Enabled(after, SecondCall(c)) && !Spared(after, SecondCall(c))
                     && (c.awaited.value + 1 < SIGNALS ==>
                           && after.state.Shutdown? && after.awaited == Some(c.awaited.value + 1)
                           && c.awaited.value + 1 in after.attempted)
  {
    hide ListOwned;
    var requested := Step(c, RequestShutdown);
    RequestOvertakes(c);
    var settled := AllEnd(requested, c.next, true);
    var done := Step(requested, settled);
    var taken := Step(done, SignalStarted);
    var after := Step(taken, StartResumes);
    RunThree(requested, settled, SignalStarted, StartResumes);
    assert taken.started == [] + [c.awaited.value] == [c.awaited.value];
    assert c.awaited.value in Owned(taken) && c.awaited.value !in taken.attempted - taken.stopped;
    assert Ordered(after) && c.awaited.value in Owned(after);
    ListOwnedIs(after);
    CallsOwned(after, SecondCall(c));
    assert c.awaited.value in ListOwned(after);
    var i :| 0 <= i < |ListOwned(after)| && ListOwned(after)[i] == c.awaited.value;
    assert Step(after, SecondCall(c)).calls[|after.calls| + i] == c.awaited.value;
  }

  /** What makes the composite shut down again what it owns: the next start fails, or, if there
      is none, another shutdown is asked for. */
  function SecondCall(c: Composite): Event
    requires c.awaited.Some?
  {
    if c.awaited.value + 1 < SIGNALS then SignalFailed else RequestShutdown
  }

  lemma CallsOwned(c: Composite, e: Event)
    requires Enabled(c, e) && (e.SignalFailed? || (e.RequestShutdown? && c.state.Started?))
    ensures Step(c, e).calls == c.calls + ListOwned(c)
  {
  }

  /** A step calls the shutdown of no SDK whose shutdown has succeeded. */
  ghost predicate Spared(c: Composite, e: Event)
    requires Enabled(c, e)
  {
    forall i | |c.calls| <= i < |Step(c, e).calls| :: Step(c, e).calls[i] !in c.stopped
  }

  ghost predicate Spares(c: Composite, events: seq<Event>)
    requires EnabledRun(c, events)
    decreases |events|
  {
    events == [] || (Spared(c, events[0]) && Spares(Step(c, events[0]), events[1..]))
  }

  /** Between the SDKs, a shutdown asked for and succeeding leaves the composite shut down and
      about to start the next one. */
  lemma RequestBetweenStarts(c: Composite)
    requires Sound(c) && c.awaited.None? && Starts(c)
    ensures var requested := Step(c, RequestShutdown);
            && c.next in requested.attempts
            && EnabledRun(requested, [AllEnd(requested, c.next, true), StartResumes])
            && var after := Run(requested, [AllEnd(requested, c.next, true), StartResumes]);
               after.state.Shutdown? && Owned(after) != {}
  {
    hide ListOwned, ReleaseFulfilled, Fulfilled;
    var requested := Step(c, RequestShutdown);
    var settled := AllEnd(requested, c.next, true);
    assert Ordered(requested);
    SettlingIs(requested, c.next, settled.outcomes);
    var done := Step(requested, settled);
    assert AllFulfilled(settled.outcomes);
    var after := Step(done, StartResumes);
    assert c.resuming.value + 1 in Owned(after);
    RunThree(requested, settled, StartResumes, RequestShutdown);
  }

  /** If it fails instead, the composite awaits the next start and takes another request. */
  lemma FailedRequestGoesOn(c: Composite)
    requires Sound(c) && c.awaited.None? && Starts(c)
    ensures var requested := Step(c, RequestShutdown);
            && c.next in requested.attempts && Enabled(requested, AllEnd(requested, c.next, false))
            && var failed := Step(requested, AllEnd(requested, c.next, false));
               Enabled(failed, StartResumes) && Awaiting(Step(failed, StartResumes))
  {
    hide ListOwned;
    var requested := Step(c, RequestShutdown);
    var outcomes := seq(|ListOwned(c)|, i => false);
    ListOwnedIs(c);
    NothingReleased(requested, ListOwned(c), outcomes);
    assert c.started[0] in ListOwned(c) && !outcomes[0];
    assert !AllFulfilled(outcomes);
    var failed := Step(requested, AllEnd(requested, c.next, false));
    assert failed.attempts == map[];
  }

  lemma {:induction false} NothingReleased(c: Composite, sdks: seq<nat>, outcomes: seq<bool>)
    requires |sdks| == |outcomes| && forall i | 0 <= i < |outcomes| :: !outcomes[i]
    ensures ReleaseFulfilled(c, sdks, outcomes) == c
    decreases |sdks|
  {
    if sdks != [] {
      NothingReleased(c, sdks[1..], outcomes[1..]);
    }
  }

  lemma SoundIsAwaiting(c: Composite)
    requires Sound(c) && c.awaited.Some?
    ensures Awaiting(c)
  {
  }

  /** Main result: a shutdown asked for keeps ownership exact over every continuation if and
      only if no start goes on that will begin or receive an SDK. */
  lemma RequestKeepsOwnershipExactly(c: Composite)
    requires Sound(c)
    ensures !Starts(c) <==>
            forall events | EnabledRun(Step(c, RequestShutdown), events) ::
              Exact(Run(Step(c, RequestShutdown), events))
  {
    hide Sound, Step, Exact, Starts;
    var requested := Step(c, RequestShutdown);
    if !Starts(c) {
      StepKeeps(c, RequestShutdown);
      forall events | EnabledRun(requested, events) ensures Exact(Run(requested, events)) {
        RequestLeavesIdle(c);
        LaterRunsAreOrderly(requested, events);
        RunsKeepOwnership(requested, events);
        SoundIsExact(Run(requested, events));
      }
    } else if c.awaited.Some? {
      SoundIsAwaiting(c);
      ShutdownDuringStartIsNotFinal(c);
    } else {
      RequestBetweenStarts(c);
      ExactOwnsNothing(Run(requested, [AllEnd(requested, c.next, true), StartResumes]));
    }
  }

  lemma ExactOwnsNothing(c: Composite)
    ensures Exact(c) && c.state.Shutdown? ==> Owned(c) == {}
  {
  }

  lemma RequestLeavesIdle(c: Composite)
    ensures !Step(c, RequestShutdown).state.Idle? && (Starts(Step(c, RequestShutdown)) <==> Starts(c))
  {
  }

  lemma SoundIsExact(c: Composite)
    requires Sound(c)
    ensures Exact(c)
  {
  }

  lemma {:induction false} OrderlyRunsSpare(c: Composite, events: seq<Event>)
    requires Sound(c) && OrderlyRun(c, events)
    ensures Spares(c, events)
    decreases |events|
  {
    hide Sound, Step;
    if events != [] {
      StoppedIsNotCalledAgain(c, events[0]);
      StepKeeps(c, events[0]);
      OrderlyRunsSpare(Step(c, events[0]), events[1..]);
    }
  }

  lemma SparesThree(c: Composite, d: Event, e: Event, f: Event, g: Event)
    requires EnabledRun(c, [d, e, f]) && Enabled(Run(c, [d, e, f]), g) && !Spared(Run(c, [d, e, f]), g)
    ensures EnabledRun(c, [d, e, f, g]) && !Spares(c, [d, e, f, g])
  {
    hide Step, Spared;
    assert [d, e, f][1..] == [e, f] && [e, f][1..] == [f] && [f][1..] == [g][1..] == [];
    assert [d, e, f, g][1..] == [e, f, g] && [e, f, g][1..] == [f, g] && [f, g][1..] == [g];
    assert EnabledRun(Step(c, d), [e, f]) && EnabledRun(Step(Step(c, d), e), [f]);
    RunThree(c, d, e, f);
    var last := Run(c, [d, e, f]);
    assert EnabledRun(Step(last, g), []) && EnabledRun(last, [g]) && !Spares(last, [g]);
    assert EnabledRun(Step(Step(c, d), e), [f, g]) && !Spares(Step(Step(c, d), e), [f, g]);
    assert EnabledRun(Step(c, d), [e, f, g]) && !Spares(Step(c, d), [e, f, g]);
  }

  /** From a request made while a start is awaited, a run that calls a stopped SDK again. */
  lemma AwaitingCallsAgain(c: Composite) returns (events: seq<Event>)
    requires Awaiting(c)
    ensures EnabledRun(Step(c, RequestShutdown), events) && !Spares(Step(c, RequestShutdown), events)
  {
    hide Step, Spared, Spares, EnabledRun, Run;
    ShutdownDuringStartIsNotFinal(c);
    var requested := Step(c, RequestShutdown);
    var settled := AllEnd(requested, c.next, true);
    SparesThree(requested, settled, SignalStarted, StartResumes, SecondCall(c));
    events := [settled, SignalStarted, StartResumes, SecondCall(c)];
  }

  lemma SparesAfter(c: Composite, e: Event, events: seq<Event>)
    requires Enabled(c, e) && EnabledRun(Step(c, e), events) && !Spares(Step(c, e), events)
    ensures EnabledRun(c, [e] + events) && !Spares(c, [e] + events)
  {
    hide Step, Spared;
    assert ([e] + events)[1..] == events;
  }

  /** And from one made between two starts. */
  lemma ResumingCallsAgain(c: Composite) returns (events: seq<Event>)
    requires Sound(c) && c.awaited.None? && Starts(c)
    ensures EnabledRun(Step(c, RequestShutdown), events) && !Spares(Step(c, RequestShutdown), events)
  {
    hide Sound, Step, Spared, Spares, EnabledRun, Awaiting, Starts;
    FailedRequestGoesOn(c);
    var requested := Step(c, RequestShutdown);
    var failing := AllEnd(requested, c.next, false);
    var failed := Step(requested, failing);
    var awaiting := Step(failed, StartResumes);
    var rest := AwaitingCallsAgain(awaiting);
    assert Enabled(awaiting, RequestShutdown);
    SparesAfter(awaiting, RequestShutdown, rest);
    SparesAfter(failed, StartResumes, [RequestShutdown] + rest);
    SparesAfter(requested, failing, [StartResumes] + ([RequestShutdown] + rest));
    events := [failing] + ([StartResumes] + ([RequestShutdown] + rest));
  }

  /** Main result: after a request no SDK that has been shut down is ever shut down again, over
      every continuation, if and only if no start goes on that will begin or receive an SDK. */
  lemma RequestSparesStoppedExactly(c: Composite)
    requires Sound(c)
    ensures !Starts(c) <==>
            forall events | EnabledRun(Step(c, RequestShutdown), events) :: Spares(Step(c, RequestShutdown), events)
  {
    hide Sound, Step, Starts, Spares, EnabledRun, Awaiting;
    var requested := Step(c, RequestShutdown);
    if !Starts(c) {
      StepKeeps(c, RequestShutdown);
      forall events | EnabledRun(requested, events) ensures Spares(requested, events) {
        RequestLeavesIdle(c);
        LaterRunsAreOrderly(requested, events);
        OrderlyRunsSpare(requested, events);
      }
    } else if c.awaited.Some? {
      SoundIsAwaiting(c);
      var events := AwaitingCallsAgain(c);
    } else {
      var events := ResumingCallsAgain(c);
    }
  }

  /** State Starting is not that condition: a failed start that is being cleaned up is in it,
      and a shutdown asked for then keeps ownership exact. */
  lemma CleanupTakesRequests(events: seq<Event>)
    requires EnabledRun(FRESH, [RequestStart, SignalFailed])
    requires EnabledRun(Step(Run(FRESH, [RequestStart, SignalFailed]), RequestShutdown), events)
    ensures var c := Run(FRESH, [RequestStart, SignalFailed]);
            && c.state.Starting? && !Starts(c) && Exact(Run(Step(c, RequestShutdown), events))
  {
    hide Exact;
    var first := [RequestStart, SignalFailed];
    var failed := Step(Step(FRESH, RequestStart), SignalFailed);
    assert first[1..] == [SignalFailed] && [SignalFailed][1..] == [];
    assert OrderlyRun(failed, []) && OrderlyRun(Step(FRESH, RequestStart), [SignalFailed]);
    assert Run(Step(FRESH, RequestStart), [SignalFailed]) == Run(failed, []) == failed;
    FreshIsSound();
    RunsKeepOwnership(FRESH, first);
    RequestKeepsOwnershipExactly(failed);
  }

  // ----- partial shutdowns -----

  /** Main result: a settled shutdown leaves exactly the failing SDKs owned, is over only when
      none failed, and a shutdown asked for again calls exactly those. */
  lemma PartialShutdownKeepsTheFailing(c: Composite, id: nat, outcomes: seq<bool>)
    requires Held(c) && id in c.attempts && |outcomes| == |c.attempts[id].sdks| && !c.attempts[id].startup
    ensures var after := AfterSettling(c, id, outcomes);
            var again := Step(after, RequestShutdown);
            && (forall k :: k in Owned(after) <==>
                  && k in Owned(c)
                  && !exists i :: 0 <= i < |outcomes| && c.attempts[id].sdks[i] == k && outcomes[i])
            && (after.state == if AllFulfilled(outcomes) then Shutdown else ShutdownFailed)
            && again.calls == after.calls + (if AllFulfilled(outcomes) then [] else ListOwned(after))
            && (forall k :: k in ListOwned(after) <==> k in Owned(after))
  {
    hide AfterSettling, ListOwned, Fulfilled;
    SettlingIs(c, id, outcomes);
    FulfilledIs(c.attempts[id].sdks, outcomes);
    var after := AfterSettling(c, id, outcomes);
    ListOwnedIs(after);
    if AllFulfilled(outcomes) {
      assert after.calls + [] == after.calls;
    }
  }

  /** While ownership is exact, an SDK whose shutdown has succeeded is not shut down again. */
  lemma StoppedIsNotCalledAgain(c: Composite, e: Event)
    requires Sound(c) && Enabled(c, e)
    ensures var after := Step(c, e).calls;
            c.calls <= after && forall k | k in after[|c.calls|..] :: k in Owned(c) && k !in c.stopped
    ensures Spared(c, e)
  {
    ListOwnedIs(c);
    if e.AttemptSettles? {
      ReleasedOthers(c, c.attempts[e.id].sdks, e.outcomes);
    }
    var calls := Step(c, e).calls;
    assert calls == c.calls || calls == c.calls + ListOwned(c);
    assert calls[|c.calls|..] == [] || calls[|c.calls|..] == ListOwned(c);
  }
}
