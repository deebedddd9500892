/** Replaying a session's entries as telemetry records: choosing the records, and delivering
    them through awaits each of which may fail, time out or be cancelled. */
module Backfill {
  import opened Optional

  // ----- choosing the records -----

  /** What an entry converts to. */
  datatype Converted = Converted(record: nat, contentCaptured: bool, redactionFailures: nat)

  /** An entry, by whether it lies in the requested window and what it converts to, if to
      anything. */
  datatype Entry = Entry(withinWindow: bool, converted: Option<Converted>)

  datatype BuildResult = BuildResult(
    records: seq<nat>, entriesScanned: nat, entriesEligible: nat, recordsSkipped: nat,
    rateLimited: bool, contentCaptured: bool, redactionFailures: nat)

  function Eligible(entries: seq<Entry>): seq<Entry> {
    if entries == [] then []
    else if entries[|entries| - 1].withinWindow then Eligible(entries[..|entries| - 1]) + [entries[|entries| - 1]]
    else Eligible(entries[..|entries| - 1])
  }

  /** Everything the eligible entries convert to, in order. */
  function Conversions(eligible: seq<Entry>): seq<Converted> {
    if eligible == [] then []
    else
      Conversions(eligible[..|eligible| - 1])
      + match eligible[|eligible| - 1].converted case Some(c) => [c] case None => []
  }

  function Failures(conversions: seq<Converted>): nat {
    if conversions == [] then 0
    else Failures(conversions[..|conversions| - 1]) + conversions[|conversions| - 1].redactionFailures
  }

  /** The number of leading eligible entries within which the limit is reached. */
  function Reach(eligible: seq<Entry>, limit: nat): (n: nat)
    ensures n <= |eligible|
  {
    if eligible == [] then 0
    else
      var before := Reach(eligible[..|eligible| - 1], limit);
      if |Conversions(eligible[..|eligible| - 1])| >= limit then before else |eligible|
  }

  predicate Captures(kept: seq<Converted>) {
    exists i :: 0 <= i < |kept| && kept[i].contentCaptured
  }

  function UpTo(all: seq<Converted>, limit: nat): seq<Converted> {
    if |all| <= limit then all else all[..limit]
  }

  /** What building must give: the first conversions up to the limit, and a skip for every
      eligible entry that came after the limit was reached. */
  ghost predicate Builds(entries: seq<Entry>, limit: nat, r: BuildResult) {
    var kept := UpTo(Conversions(Eligible(entries)), limit);
    && r.records == seq(|kept|, i requires 0 <= i < |kept| => kept[i].record)
    && r.entriesScanned == |entries| && r.entriesEligible == |Eligible(entries)|
    && r.recordsSkipped == |Eligible(entries)| - Reach(Eligible(entries), limit)
    && (r.rateLimited <==> r.recordsSkipped > 0)
    && (r.contentCaptured <==> Captures(kept))
    && r.redactionFailures == Failures(kept)
  }

  lemma {:induction false} ReachIs(eligible: seq<Entry>, limit: nat)
    ensures |Conversions(eligible)| >= limit ==>
              && |Conversions(eligible[..Reach(eligible, limit)])| == limit
              && Conversions(eligible[..Reach(eligible, limit)]) == Conversions(eligible)[..limit]
    ensures |Conversions(eligible)| < limit ==> Reach(eligible, limit) == |eligible|
  {
    if eligible == [] {
      assert eligible[..0] == eligible;
    } else {
      var before := eligible[..|eligible| - 1];
      ReachIs(before, limit);
      if |Conversions(before)| >= limit {
        assert eligible[..Reach(before, limit)] == before[..Reach(before, limit)];
        assert Conversions(eligible)[..limit] == Conversions(before)[..limit];
      } else {
        assert eligible[..|eligible|] == eligible;
        assert |Conversions(eligible)| <= |Conversions(before)| + 1;
        if |Conversions(eligible)| >= limit {
          assert Conversions(eligible)[..limit] == Conversions(eligible);
        }
      }
    }
  }

  method BuildRecords(entries: seq<Entry>, limit: nat) returns (r: BuildResult)
    ensures Builds(entries, limit, r)
  {
    hide Eligible, Conversions, Reach, Failures;
    var kept: seq<Converted> := [];
    var eligible, skipped, rateLimited, contentCaptured, redactionFailures := 0, 0, false, false, 0;
    BuildStart(limit);
    assert entries[..0] == [];
    var i := 0;
    while i < |entries|
      invariant 0 <= i <= |entries|
      invariant eligible == |Eligible(entries[..i])| && skipped == eligible - Reach(Eligible(entries[..i]), limit)
      invariant kept == UpTo(Conversions(Eligible(entries[..i])), limit)
      invariant |kept| < limit ==> skipped == 0
      invariant rateLimited <==> skipped > 0
      invariant contentCaptured <==> Captures(kept)
      invariant redactionFailures == Failures(kept)
    {
      var entry := entries[i];
      BuildStep(entries, i, limit);
      i := i + 1;
      if !entry.withinWindow {
        continue;
      }
      eligible := eligible + 1;
      if |kept| >= limit {
        skipped := skipped + 1;
        rateLimited := true;
        continue;
      }
      if entry.converted.None? {
        continue;
      }
      KeepStep(kept, entry.converted.value);
      kept := kept + [entry.converted.value];
      contentCaptured := contentCaptured || entry.converted.value.contentCaptured;
      redactionFailures := redactionFailures + entry.converted.value.redactionFailures;
    }
    assert entries[..i] == entries;
    r := BuildResult(seq(|kept|, k requires 0 <= k < |kept| => kept[k].record), |entries|, eligible, skipped,
                     rateLimited, contentCaptured, redactionFailures);
  }

  lemma BuildStart(limit: nat)
    ensures Eligible([]) == [] && Conversions([]) == [] && Reach([], limit) == 0 && Failures([]) == 0
  {
  }

  lemma KeepStep(kept: seq<Converted>, c: Converted)
    ensures Failures(kept + [c]) == Failures(kept) + c.redactionFailures
    ensures Captures(kept + [c]) <==> Captures(kept) || c.contentCaptured
  {
    var more := kept + [c];
    assert more[..|kept|] == kept && more[|kept|] == c;
    if Captures(kept) {
      var i :| 0 <= i < |kept| && kept[i].contentCaptured;
      assert more[i].contentCaptured;
    }
  }

  /** One entry more. */
  lemma BuildStep(entries: seq<Entry>, i: nat, limit: nat)
    requires i < |entries|
    ensures var before, after := Eligible(entries[..i]), Eligible(entries[..i + 1]);
            && after == (if entries[i].withinWindow then before + [entries[i]] else before)
            && Conversions(after) == Conversions(before) +
                 (if entries[i].withinWindow && entries[i].converted.Some? then [entries[i].converted.value] else [])
            && Reach(after, limit) ==
                 (if entries[i].withinWindow && |Conversions(before)| < limit then |before| + 1
                  else Reach(before, limit))
  {
    assert entries[..i + 1][..i] == entries[..i];
    var before := Eligible(entries[..i]);
    assert (before + [entries[i]])[..|before|] == before;
  }

  /** Main result: never more records than the limit; records and skips are distinct eligible
      entries; entries are skipped only after exactly the limit was reached; and without a
      skip nothing was left out. */
  lemma BuildIsBounded(entries: seq<Entry>, limit: nat, r: BuildResult)
    requires Builds(entries, limit, r)
    ensures |r.records| <= limit && |r.records| + r.recordsSkipped <= r.entriesEligible <= r.entriesScanned
    ensures r.recordsSkipped > 0 ==> |r.records| == limit
    ensures r.recordsSkipped == 0 ==> |r.records| == |Conversions(Eligible(entries))|
  {
    var eligible := Eligible(entries);
    EligibleSize(entries);
    ReachIs(eligible, limit);
    ConversionsSize(eligible[..Reach(eligible, limit)]);
    ConversionsSize(eligible);
    assert eligible[..|eligible|] == eligible;
  }

  lemma {:induction false} EligibleSize(entries: seq<Entry>)
    ensures |Eligible(entries)| <= |entries|
  {
    if entries != [] {
      EligibleSize(entries[..|entries| - 1]);
    }
  }

  lemma {:induction false} ConversionsSize(eligible: seq<Entry>)
    ensures |Conversions(eligible)| <= |eligible|
    ensures |Conversions(eligible)| == |eligible| <==> forall i | 0 <= i < |eligible| :: eligible[i].converted.Some?
  {
    if eligible != [] {
      ConversionsSize(eligible[..|eligible| - 1]);
    }
  }

  /** The number of skips is that of the records the limit excluded exactly when every entry
      after the limit would have become a record. */
  lemma SkipsAreExcludedRecords(entries: seq<Entry>, limit: nat, r: BuildResult)
    requires Builds(entries, limit, r)
    ensures var eligible := Eligible(entries);
            r.recordsSkipped == |Conversions(eligible)| - |r.records| <==>
              forall i | Reach(eligible, limit) <= i < |eligible| :: eligible[i].converted.Some?
  {
    hide Eligible, Conversions, Reach;
    var eligible := Eligible(entries);
    var reach := Reach(eligible, limit);
    ReachIs(eligible, limit);
    ConversionsSplit(eligible, reach);
    ConversionsSize(eligible[reach..]);
    assert eligible[..|eligible|] == eligible;
    assert forall i | reach <= i < |eligible| :: eligible[i] == eligible[reach..][i - reach];
  }

  lemma {:induction false} ConversionsSplit(eligible: seq<Entry>, at: nat)
    requires at <= |eligible|
    ensures Conversions(eligible) == Conversions(eligible[..at]) + Conversions(eligible[at..])
    decreases |eligible|
  {
    if at == |eligible| {
      assert eligible[..at] == eligible && eligible[at..] == [];
    } else {
      var before := eligible[..|eligible| - 1];
      ConversionsSplit(before, at);
      assert before[..at] == eligible[..at] && eligible[at..][..|eligible| - at - 1] == before[at..];
    }
  }

  // ----- delivering them -----

  /** What an await can throw: a reported interruption, something like an abort, or anything
      else. */
  datatype Error = Interrupted(reason: string, timedOut: bool, cancelled: bool) | AbortLike | Other

  const CANCELLED := Interrupted("operation cancelled", false, true)

  /** The exporter is ready; or its creation throws at once; or waiting for it fails, and the
      promised exporter arrives all the same, sooner or later, or never does. */
  datatype Setup = Ready | Threw(error: Error) | Abandoned(error: Error, arrives: bool)

  /** One possible course of an export: what each await throws, if anything, and whether the
      signal is found aborted at each point that looks. */
  datatype Course = Course(
    abortedBeforeSetup: bool, setup: Setup, abortedBefore: nat -> bool, emit: nat -> Option<Error>,
    abortedBeforeFlush: bool, flush: Option<Error>, abortedAfterFlush: bool, shutdown: Option<Error>,
    abortedAtEnd: bool)

  datatype Progress = Progress(recordsSelected: nat, recordsAttempted: nat, recordsQueued: nat, flushSucceeded: bool)

  datatype Delivery = Delivery(attempted: nat, queued: nat, confirmed: nat, unknown: nat, notAttempted: nat)

  datatype Failure = Failure(reason: string, timedOut: bool, cancelled: bool, delivery: Delivery)

  /** `emitted` are the records handed to the exporter, `shutdowns` how often it is shut down,
      the disposal of one that arrives after a failed set-up included. */
  datatype Export = Export(failure: Option<Failure>, delivery: Delivery, emitted: seq<nat>, shutdowns: nat)

  /** `backfillDeliveryOutcome`. */
  function Outcome(p: Progress): Delivery {
    Delivery(
      p.recordsAttempted, p.recordsQueued,
      if p.flushSucceeded then p.recordsQueued else 0,
      if p.flushSucceeded then 0 else p.recordsAttempted,
      if p.recordsSelected > p.recordsAttempted then p.recordsSelected - p.recordsAttempted else 0)
  }

  /** `backfillOperationError`. */
  function Reported(error: Error, p: Progress, operation: string): Failure {
    match error
    case Interrupted(reason, timedOut, cancelled) => Failure(reason, timedOut, cancelled, Outcome(p))
    case AbortLike => Failure("operation cancelled", false, true, Outcome(p))
    case Other => Failure(operation + " failed", false, false, Outcome(p))
  }

  /** What stops the emission of a record, if anything: the check before it, or its await. */
  function EmitError(c: Course, i: nat): Option<Error> {
    if c.abortedBefore(i) then Some(CANCELLED) else c.emit(i)
  }

  /** The first record, from the given one on, whose emission fails. */
  function FirstFailing(c: Course, i: nat, n: nat): (first: nat)
    requires i <= n
    ensures i <= first <= n && (first < n ==> EmitError(c, first).Some?)
    decreases n - i
  {
    if i == n || EmitError(c, i).Some? then i else FirstFailing(c, i + 1, n)
  }

  class DeliveryProgress {
    const recordsSelected: nat
    var recordsAttempted: nat
    var recordsQueued: nat
    var flushSucceeded: bool

    function Value(): Progress
      reads this
    {
      Progress(recordsSelected, recordsAttempted, recordsQueued, flushSucceeded)
    }

    constructor (selected: nat)
      ensures Value() == Progress(selected, 0, 0, false)
    {
      recordsSelected, recordsAttempted, recordsQueued, flushSucceeded := selected, 0, 0, false;
    }

    /** The body of the delivery's `try`: emissions, then the flush. */
    method EmitAndFlush(records: seq<nat>, c: Course) returns (pending: Option<Failure>, emitted: seq<nat>)
      requires Value() == Progress(|records|, 0, 0, false)
      modifies this
      ensures Attempted(records, c, Value(), pending, emitted)
    {
      emitted := [];
      pending := None;
      var i := 0;
      while i < |records|
        invariant 0 <= i <= |records| && Value() == Progress(|records|, i, i, false)
        invariant pending.None? && emitted == records[..i]
        invariant FirstFailing(c, 0, |records|) == FirstFailing(c, i, |records|)
      {
        if c.abortedBefore(i) {
          pending := Some(Reported(CANCELLED, Value(), "export emit"));
          return;
        }
        recordsAttempted := recordsAttempted + 1;
        emitted := emitted + [records[i]];
        if c.emit(i).Some? {
          pending := Some(Reported(c.emit(i).value, Value(), "export emit"));
          return;
        }
        recordsQueued := recordsQueued + 1;
        i := i + 1;
      }
      if c.abortedBeforeFlush {
        pending := Some(Reported(CANCELLED, Value(), "export flush"));
        return;
      }
      if c.flush.Some? {
        pending := Some(Reported(c.flush.value, Value(), "export flush"));
        return;
      }
      flushSucceeded := true;
      if c.abortedAfterFlush {
        pending := Some(Reported(CANCELLED, Value(), "export flush"));
      }
    }
  }

  /** Where emission and flush stop: at the first record that fails (which was handed over
      unless the abort was seen before), or else at the flush. */
  ghost predicate Attempted(records: seq<nat>, c: Course, p: Progress, pending: Option<Failure>, emitted: seq<nat>) {
    var first := FirstFailing(c, 0, |records|);
    && p.recordsSelected == |records| && p.recordsAttempted <= |records|
    && emitted == records[..p.recordsAttempted] && p.recordsQueued == first
    && (if first < |records| then
          && p.recordsAttempted == (if c.abortedBefore(first) then first else first + 1) && !p.flushSucceeded
          && pending == Some(Reported(EmitError(c, first).value, p, "export emit"))
        else
          && p.recordsAttempted == first && (p.flushSucceeded <==> !c.abortedBeforeFlush && c.flush.None?)
          && pending == if c.abortedBeforeFlush then Some(Reported(CANCELLED, p, "export flush"))
                        else if c.flush.Some? then Some(Reported(c.flush.value, p, "export flush"))
                        else if c.abortedAfterFlush then Some(Reported(CANCELLED, p, "export flush"))
                        else None)
  }

  /** An exporter was obtained, in time or too late. */
  predicate Obtained(c: Course) {
    !c.abortedBeforeSetup && (c.setup.Ready? || (c.setup.Abandoned? && c.setup.arrives))
  }

  /** `disposeObsBackfillExporterAfterSetupFailure`, which runs on after the export has failed;
      what goes wrong in it is not reported. */
  method DisposeAfterSetupFailure(setup: Setup) returns (shutdowns: nat)
    requires !setup.Ready?
    ensures shutdowns == if setup.Abandoned? && setup.arrives then 1 else 0
  {
    shutdowns := 0;
    if setup.Abandoned? {
      if setup.arrives {
        shutdowns := shutdowns + 1;
      }
    }
  }

  /** The export as a whole: `exportObsBackfillRecords`. */
  method ExportRecords(records: seq<nat>, c: Course) returns (e: Export)
    ensures Exported(records, c, e)
  {
    var progress := new DeliveryProgress(|records|);
    if c.abortedBeforeSetup {
      return Export(Some(Reported(CANCELLED, progress.Value(), "exporter setup")), Outcome(progress.Value()), [], 0);
    }
    if !c.setup.Ready? {
      var disposals := DisposeAfterSetupFailure(c.setup);
      return Export(Some(Reported(c.setup.error, progress.Value(), "exporter setup")), Outcome(progress.Value()), [],
                    disposals);
    }
    var pending, emitted := progress.EmitAndFlush(records, c);
    ghost var tried := pending;
    if c.shutdown.Some? && pending.None? {
      pending := Some(Reported(c.shutdown.value, progress.Value(), "export shutdown"));
    }
    if pending.None? && c.abortedAtEnd {
      pending := Some(Failure("operation cancelled", false, true, Outcome(progress.Value())));
    }
    e := Export(pending, Outcome(progress.Value()), emitted, 1);
    assert Attempted(records, c, progress.Value(), tried, emitted);
  }

  ghost predicate Exported(records: seq<nat>, c: Course, e: Export) {
    if c.abortedBeforeSetup || !c.setup.Ready? then
      var p := Progress(|records|, 0, 0, false);
      var error := if c.abortedBeforeSetup then CANCELLED else c.setup.error;
      e == Export(Some(Reported(error, p, "exporter setup")), Outcome(p), [], if Obtained(c) then 1 else 0)
    else
      exists p, tried ::
        && Attempted(records, c, p, tried, e.emitted) && e.delivery == Outcome(p) && e.shutdowns == 1
        && e.failure == if tried.Some? then tried
                        else if c.shutdown.Some? then Some(Reported(c.shutdown.value, p, "export shutdown"))
                        else if c.abortedAtEnd then Some(Failure("operation cancelled", false, true, Outcome(p)))
                        else None
  }

  // ----- what every course keeps -----

  lemma {:induction false} FirstFailingIs(c: Course, i: nat, n: nat)
    requires i <= n
    ensures forall k | i <= k < FirstFailing(c, i, n) :: EmitError(c, k).None?
    decreases n - i
  {
    if i < n && EmitError(c, i).None? {
      FirstFailingIs(c, i + 1, n);
    }
  }

  /** Main result: in every course, completed, interrupted or failed, the records confirmed,
      unknown and not attempted are those selected; the exporter got exactly the first records
      attempted, each once and in order, of which at most the last was not queued; the
      confirmed are all or none; a failure reports the same delivery; a normal return means
      that all were confirmed; and an exporter that was obtained, even too late, is shut down
      exactly once. */
  lemma DeliveryAddsUp(records: seq<nat>, c: Course, e: Export)
    requires Exported(records, c, e)
    ensures var d := e.delivery;
            && d.confirmed + d.unknown + d.notAttempted == |records|
            && d.queued <= d.attempted <= d.queued + 1 && d.attempted <= |records|
            && e.emitted == records[..d.attempted]
            && e.shutdowns == (if c.abortedBeforeSetup then 0 else if c.setup.Ready? then 1
                               else if c.setup.Abandoned? && c.setup.arrives then 1 else 0)
            && (d.confirmed == 0 || d.confirmed == |records|)
            && (e.failure.Some? ==> e.failure.value.delivery == d)
            && (e.failure.None? ==> d == Delivery(|records|, |records|, |records|, 0, 0) && e.shutdowns == 1)
  {
    if !c.abortedBeforeSetup && c.setup.Ready? {
      FirstFailingIs(c, 0, |records|);
    } else {
      assert records[..0] == [];
    }
  }

  /** Every record was handed over without an error, and the flush was begun and succeeded. */
  predicate Flushed(records: seq<nat>, c: Course) {
    && !c.abortedBeforeSetup && c.setup.Ready? && (forall i | 0 <= i < |records| :: EmitError(c, i).None?)
    && !c.abortedBeforeFlush && c.flush.None?
  }

  /** Main result: in every course the records not attempted are those never handed to the
      exporter; those handed over are all confirmed if they were all flushed, and all unknown
      otherwise; and the queued are those handed over, but for one whose emission threw. */
  lemma DeliverySaysWhatHappened(records: seq<nat>, c: Course, e: Export)
    requires Exported(records, c, e)
    ensures var d := e.delivery;
            && d.attempted == |e.emitted| && d.notAttempted == |records| - |e.emitted|
            && d.confirmed == (if Flushed(records, c) then |records| else 0)
            && d.unknown == (if Flushed(records, c) then 0 else |e.emitted|)
            && d.queued == |e.emitted| - (if e.emitted != [] && c.emit(|e.emitted| - 1).Some? then 1 else 0)
            && (forall i | 0 <= i < |e.emitted| - 1 :: c.emit(i).None?)
            && (Flushed(records, c) ==> e.emitted == records)
  {
    if !c.abortedBeforeSetup && c.setup.Ready? {
      FirstFailingIs(c, 0, |records|);
      var first := FirstFailing(c, 0, |records|);
      assert first < |records| ==> EmitError(c, first).Some?;
      forall k | 0 <= k < first ensures EmitError(c, k).None? && c.emit(k).None? {
        assert EmitError(c, k).None?;
      }
      assert records[..|records|] == records;
    }
  }

  /** What stops an export first, and during which operation. */
  ghost predicate StoppedBy(records: seq<nat>, c: Course, error: Error, operation: string) {
    if c.abortedBeforeSetup || !c.setup.Ready? then
      operation == "exporter setup" && error == if c.abortedBeforeSetup then CANCELLED else c.setup.error
    else if exists i :: 0 <= i < |records| && (c.abortedBefore(i) || c.emit(i).Some?) then
      operation == "export emit" &&
      exists i :: 0 <= i < |records| && (forall k | 0 <= k < i :: !c.abortedBefore(k) && c.emit(k).None?)
                  && if c.abortedBefore(i) then error == CANCELLED else c.emit(i) == Some(error)
    else if c.abortedBeforeFlush || c.flush.Some? || c.abortedAfterFlush then
      && operation == "export flush"
      && error == if !c.abortedBeforeFlush && c.flush.Some? then c.flush.value else CANCELLED
    else if c.shutdown.Some? then operation == "export shutdown" && error == c.shutdown.value
    else c.abortedAtEnd && error == CANCELLED
  }

  /** Main result: a failure reports exactly what stopped the export first: an interruption with
      its own reason and flags, an abort as a cancellation, anything else as a failure of the
      operation under way; and the delivery as it stands. */
  lemma FailureReportsWhatStopped(records: seq<nat>, c: Course, e: Export, error: Error, operation: string)
    requires Exported(records, c, e) && StoppedBy(records, c, error, operation)
    ensures e.failure.Some? && e.failure.value.delivery == e.delivery
    ensures var f := e.failure.value;
            match error
            case Interrupted(reason, timedOut, cancelled) =>
              f.reason == reason && f.timedOut == timedOut && f.cancelled == cancelled
            case AbortLike => f.reason == "operation cancelled" && !f.timedOut && f.cancelled
            case Other => f.reason == operation + " failed" && !f.timedOut && !f.cancelled
  {
    FirstFailingIs(c, 0, |records|);
    var first := FirstFailing(c, 0, |records|);
    assert first < |records| ==> EmitError(c, first).Some?;
    if !c.abortedBeforeSetup && c.setup.Ready? {
      if i :| 0 <= i < |records| && (c.abortedBefore(i) || c.emit(i).Some?) {
        assert EmitError(c, i).Some?;
        var j :| 0 <= j < |records| && (forall k | 0 <= k < j :: !c.abortedBefore(k) && c.emit(k).None?)
                 && if c.abortedBefore(j) then error == CANCELLED else c.emit(j) == Some(error);
        assert EmitError(c, j).Some? && first == j;
      }
    }
  }

  /** Something stops it unless it returns normally. */
  lemma SomethingStopped(records: seq<nat>, c: Course, e: Export) returns (error: Error, operation: string)
    requires Exported(records, c, e) && e.failure.Some?
    ensures StoppedBy(records, c, error, operation)
  {
    FirstFailingIs(c, 0, |records|);
    var first := FirstFailing(c, 0, |records|);
    forall k | 0 <= k < first ensures !c.abortedBefore(k) && c.emit(k).None? {
      assert EmitError(c, k).None?;
    }
    if c.abortedBeforeSetup || !c.setup.Ready? {
      return if c.abortedBeforeSetup then CANCELLED else c.setup.error, "exporter setup";
    } else if first < |records| {
      assert EmitError(c, first).Some? && (c.abortedBefore(first) || c.emit(first).Some?);
      return EmitError(c, first).value, "export emit";
    } else if c.abortedBeforeFlush || c.flush.Some? || c.abortedAfterFlush {
      return if !c.abortedBeforeFlush && c.flush.Some? then c.flush.value else CANCELLED, "export flush";
    } else if c.shutdown.Some? {
      return c.shutdown.value, "export shutdown";
    }
    return CANCELLED, "";
  }

  /** Main result: the export returns normally exactly when no await threw and no check saw
      the abort. */
  lemma ReturnsExactlyUninterrupted(records: seq<nat>, c: Course, e: Export)
    requires Exported(records, c, e)
    ensures e.failure.None? <==>
              && !c.abortedBeforeSetup && c.setup.Ready? && (forall i | 0 <= i < |records| :: EmitError(c, i).None?)
              && !c.abortedBeforeFlush && c.flush.None? && !c.abortedAfterFlush && c.shutdown.None? && !c.abortedAtEnd
  {
    FirstFailingIs(c, 0, |records|);
  }

  /** What was interrupted may still have been delivered: after a successful flush a failing
      shutdown or a late abort reports a failure with every record confirmed. */
  lemma InterruptedAfterFlushIsConfirmed(records: seq<nat>, c: Course, e: Export)
    requires Exported(records, c, e) && !c.abortedBeforeSetup && c.setup.Ready?
    requires (forall i | 0 <= i < |records| :: EmitError(c, i).None?) && !c.abortedBeforeFlush && c.flush.None?
    ensures e.delivery == Delivery(|records|, |records|, |records|, 0, 0)
    ensures e.failure.Some? <==> c.abortedAfterFlush || c.shutdown.Some? || c.abortedAtEnd
  {
    FirstFailingIs(c, 0, |records|);
  }
}
