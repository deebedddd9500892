/** How a parent agent hands its lineage to a child process through environment variables, and
    how the child reads it back. */
module Lineage {
  import opened BoundedMaps
  import opened Optional
  import opened LineageText

  type Env = map<string, string>

  datatype Config = Config(
    workflowEnabled: bool, propagateToSubagents: bool, propagateTraceContext: bool,
    workflowIdEnv: string, idEnv: string, parentIdEnv: string, rootIdEnv: string, parentSessionIdEnv: string,
    parentTraceIdEnv: string, parentSpanIdEnv: string, depthEnv: string, spawnIdEnv: string,
    envelopeVersionEnv: string, displayNameEnv: string, roleEnv: string, capabilityEnv: string)

  const ENVELOPE_VERSION := "1"
  const MAXIMUM_DEPTH := 64

  datatype Reason = PartialEnvelope | MalformedEnvelope | StaleEnvelope | UnsupportedIdentityEnvelope

  datatype Result<T> = Ok(value: T) | Err(reason: Reason)

  function Names(c: Config): seq<string> {
    [c.workflowIdEnv, c.idEnv, c.parentIdEnv, c.rootIdEnv, c.parentSessionIdEnv, c.parentTraceIdEnv, c.parentSpanIdEnv,
     c.depthEnv, c.spawnIdEnv, c.envelopeVersionEnv, c.displayNameEnv, c.roleEnv, c.capabilityEnv]
  }

  const HEADERS := ["traceparent", "tracestate", "TRACEPARENT", "TRACESTATE"]

  /** `validatePropagationEnvironmentNames`: safe, unique whatever the case, and distinct from
      the trace headers. */
  predicate NamesValid(c: Config) {
    && (forall i | 0 <= i < 13 ::
         WellFormedName(Names(c)[i]) && Upper(Names(c)[i]) != "TRACEPARENT" && Upper(Names(c)[i]) != "TRACESTATE")
    && (forall i, j | 0 <= i < j < 13 :: Upper(Names(c)[i]) != Upper(Names(c)[j]))
  }

  function Keys(c: Config): seq<string> {
    Names(c) + HEADERS
  }

  function Get(env: Env, name: string): Option<string> {
    if name in env then Some(env[name]) else None
  }

  predicate Truthy(value: Option<string>) {
    value.Some? && value.value != ""
  }

  // ----- reading -----

  datatype TraceContext = TraceContext(parent: ParentSpan, tracestate: Option<string>)

  datatype Propagated = Propagated(
    workflowId: Option<string>, agentId: Option<string>, parentAgentId: Option<string>, rootAgentId: Option<string>,
    parentSessionId: Option<string>, parentTraceId: Option<string>, parentSpanId: Option<string>, depth: Option<int>,
    spawnId: Option<string>, identity: Option<Descriptor>, trace: Option<TraceContext>)

  const NOTHING := Propagated(None, None, None, None, None, None, None, None, None, None, None)

  /** `Number` of a text, when that is an integer. */
  type Number = string -> Option<int>

  /** The largest integer up to which every integer has a double of its own. */
  const MAX_SAFE := 9007199254740991

  ghost predicate ReadsDecimals(number: Number) {
    forall n: nat :: n <= MAX_SAFE ==> number(Decimal(n)) == Some(n)
  }

  function ReadIdentity(c: Config, env: Env): Result<Option<Descriptor>> {
    var displayName, role, capability := Get(env, c.displayNameEnv), Get(env, c.roleEnv), Get(env, c.capabilityEnv);
    match Get(env, c.envelopeVersionEnv)
    case None => if displayName.Some? || role.Some? || capability.Some? then Err(PartialEnvelope) else Ok(None)
    case Some(version) =>
      if version != ENVELOPE_VERSION then Err(UnsupportedIdentityEnvelope)
      else if displayName.None? || role.None? || capability.None? then Err(PartialEnvelope)
      else
        var d := Descriptor(displayName.value, role.value, capability.value);
        if ValidDescriptor(d) then Ok(Some(d)) else Err(MalformedEnvelope)
  }

  predicate ValueOk(env: Env, name: string) {
    Truthy(Get(env, name)) ==> ValidValue(Get(env, name).value)
  }

  /** `validateLineageEnvironment` finds no issue. */
  predicate EnvironmentValid(c: Config, env: Env, number: Number) {
    && NamesValid(c)
    && ValueOk(env, c.workflowIdEnv) && ValueOk(env, c.idEnv)
    && ValueOk(env, c.parentIdEnv) && ValueOk(env, c.rootIdEnv)
    && ValueOk(env, c.parentSessionIdEnv) && ValueOk(env, c.spawnIdEnv) && ValueOk(env, c.capabilityEnv)
    && (Truthy(Get(env, c.parentTraceIdEnv)) ==> IsId(Get(env, c.parentTraceIdEnv).value, 32))
    && (Truthy(Get(env, c.parentSpanIdEnv)) ==> IsId(Get(env, c.parentSpanIdEnv).value, 16))
    && (Truthy(Get(env, c.depthEnv)) ==>
          && number(Get(env, c.depthEnv).value).Some?
          && 0 <= number(Get(env, c.depthEnv).value).value <= MAXIMUM_DEPTH)
  }

  function ReadTrace(env: Env): Result<Option<TraceContext>> {
    var traceparent, tracestate := Get(env, "traceparent"), Get(env, "tracestate");
    if Truthy(Get(env, "TRACEPARENT")) || Truthy(Get(env, "TRACESTATE")) then Err(StaleEnvelope)
    else if !Truthy(traceparent) then if Truthy(tracestate) then Err(PartialEnvelope) else Ok(None)
    else
      var parsed := ParseTraceparent(traceparent.value);
      if parsed.None? then Err(MalformedEnvelope)
      else if Truthy(tracestate) && !ValidTracestate(tracestate.value) then Err(MalformedEnvelope)
      else Ok(Some(TraceContext(parsed.value, if Truthy(tracestate) then tracestate else None)))
  }

  /** `assertConsistentParentTraceMetadata`. */
  function TraceMetadataIssue(c: Config, env: Env, trace: Option<TraceContext>): Option<Reason> {
    var traceId, spanId := Get(env, c.parentTraceIdEnv), Get(env, c.parentSpanIdEnv);
    if Truthy(traceId) != Truthy(spanId) then Some(PartialEnvelope)
    else if trace.None? || !Truthy(traceId) then None
    else if Lower(traceId.value) != trace.value.parent.traceId || Lower(spanId.value) != trace.value.parent.spanId
    then Some(StaleEnvelope)
    else None
  }

  /** `readTrustedPropagatedLineage`. */
  function Read(c: Config, env: Env, trusted: bool, number: Number): Result<Propagated> {
    if !trusted then Ok(NOTHING)
    else
      var identity := ReadIdentity(c, env);
      if identity.Err? then Err(identity.reason)
      else if !EnvironmentValid(c, env, number) then Err(MalformedEnvelope)
      else
        var trace := ReadTrace(env);
        if trace.Err? then Err(trace.reason)
        else
          var issue := TraceMetadataIssue(c, env, trace.value);
          if issue.Some? then Err(issue.value)
          else
            var depth := Get(env, c.depthEnv);
            Ok(Propagated(
              Get(env, c.workflowIdEnv), Get(env, c.idEnv), Get(env, c.parentIdEnv), Get(env, c.rootIdEnv),
              Get(env, c.parentSessionIdEnv),
              if trace.value.Some? then Some(trace.value.value.parent.traceId) else Get(env, c.parentTraceIdEnv),
              if trace.value.Some? then Some(trace.value.value.parent.spanId) else Get(env, c.parentSpanIdEnv),
              if Truthy(depth) then number(depth.value) else None,
              Get(env, c.spawnIdEnv), identity.value, trace.value))
  }

  // ----- the lineage of an agent -----

  datatype Lineage = Lineage(
    workflowId: string, agentId: string, parentAgentId: Option<string>, rootAgentId: string, depth: int,
    role: string, displayName: Option<string>, capability: Option<string>,
    parentSessionId: Option<string>, parentTraceId: Option<string>, parentSpanId: Option<string>,
    spawnId: Option<string>, trace: Option<TraceContext>, failure: Option<Reason>, orphaned: bool)

  /** `generated` are the identifiers that `generateId` returns, in order. */
  datatype Options = Options(
    trusted: bool, role: Option<string>, displayName: Option<string>, capability: Option<string>,
    requireComplete: bool, failOpen: bool, generated: nat -> string)

  /** `assertCompletePropagationEnvelope`. */
  function CompletenessIssue(c: Config, env: Env): Option<Reason> {
    if !(exists i :: 0 <= i < 17 && Truthy(Get(env, Keys(c)[i]))) then None
    else if Truthy(Get(env, c.idEnv)) then Some(StaleEnvelope)
    else if !(Truthy(Get(env, c.workflowIdEnv)) && Truthy(Get(env, c.parentIdEnv)) && Truthy(Get(env, c.rootIdEnv))
              && Truthy(Get(env, c.depthEnv)) && Truthy(Get(env, c.spawnIdEnv)))
    then Some(PartialEnvelope)
    else None
  }

  /** The propagation a child may use, or why there is none. */
  function Trusted(c: Config, env: Env, o: Options, number: Number): Result<Propagated> {
    var read := Read(c, env, o.trusted, number);
    if read.Err? || !o.trusted || !o.requireComplete || CompletenessIssue(c, env).None? then read
    else Err(CompletenessIssue(c, env).value)
  }

  function Make(p: Propagated, failure: Option<Reason>, o: Options): Lineage {
    var agentId := if p.agentId.Some? then p.agentId.value else "agent-" + o.generated(0);
    var workflowId :=
      if p.workflowId.Some? then p.workflowId.value else "workflow-" + o.generated(if p.agentId.Some? then 0 else 1);
    Lineage(
      workflowId, agentId, p.parentAgentId,
      if Truthy(p.rootAgentId) then p.rootAgentId.value else agentId,
      if Truthy(p.parentAgentId) then (if p.depth.Some? then p.depth.value else 0) + 1 else 0,
      if o.role.Some? then o.role.value
      else if p.identity.Some? then p.identity.value.role
      else if Truthy(p.parentAgentId) then "subagent" else "root",
      Or(o.displayName, if p.identity.Some? then Some(p.identity.value.displayName) else None),
      Or(o.capability, if p.identity.Some? then Some(p.identity.value.capability) else None),
      p.parentSessionId, p.parentTraceId, p.parentSpanId, p.spawnId, p.trace, failure,
      (Truthy(p.parentAgentId) && !Truthy(p.rootAgentId)) || failure.Some?)
  }

  /** `createAgentLineageContext`: without `failOpen` an invalid propagation is an error. */
  function Create(c: Config, env: Env, o: Options, number: Number): Result<Lineage> {
    match Trusted(c, env, o, number)
    case Ok(p) => Ok(Make(p, None, o))
    case Err(reason) => if o.failOpen then Ok(Make(NOTHING, Some(reason), o)) else Err(reason)
  }

  // ----- writing -----

  datatype SpanContext = SpanContext(traceId: string, spanId: string, flags: nat, tracestate: string)

  /** One spawn: what the parent adds to its own lineage. */
  datatype Hop = Hop(
    identity: Option<Descriptor>, spawnId: string, sessionId: string, span: Option<SpanContext>, base: Env)

  function Sanitize(c: Config, env: Env): Env {
    env - (set k | k in Keys(c))
  }

  function Defined(name: string, value: Option<string>): Env {
    if Truthy(value) then map[name := value.value] else map[]
  }

  function HeaderOf(c: Config, span: Option<SpanContext>): Option<string> {
    if c.propagateTraceContext && span.Some? && IsId(span.value.traceId, 32) && IsId(span.value.spanId, 16)
    then Some(Traceparent(span.value.traceId, span.value.spanId, span.value.flags))
    else None
  }

  function IdentityEnv(c: Config, identity: Option<Descriptor>): Env {
    match identity
    case None => map[]
    case Some(d) =>
      map[c.envelopeVersionEnv := ENVELOPE_VERSION, c.displayNameEnv := d.displayName, c.roleEnv := d.role,
          c.capabilityEnv := d.capability]
  }

  /** `createPropagationEnvironment`. */
  function LineageEnv(c: Config, l: Lineage, extra: Env, identity: Option<Descriptor>): Env {
    var sanitized := Sanitize(c, extra);
    if !c.workflowEnabled || !c.propagateToSubagents then sanitized
    else
      sanitized
      + map[c.workflowIdEnv := l.workflowId, c.parentIdEnv := l.agentId, c.rootIdEnv := l.rootAgentId,
            c.depthEnv := if l.depth >= 0 then Decimal(l.depth) else "-" + Decimal(-l.depth)]
      + IdentityEnv(c, identity)
  }

  /** `sanitizeTraceContextEnvironment`. */
  function WithHeaders(env: Env, traceparent: Option<string>, tracestate: Option<string>): Env {
    var bare := env - {"traceparent", "tracestate", "TRACEPARENT", "TRACESTATE"};
    if traceparent.None? then bare
    else bare["traceparent" := traceparent.value] + Defined("tracestate", tracestate)
  }

  /** `buildSubagentPropagationEnvironment`, for an identity that is valid or absent. */
  function Encode(c: Config, l: Lineage, hop: Hop): Env {
    var base := Sanitize(c, hop.base);
    if !c.workflowEnabled || !c.propagateToSubagents then base
    else
      var header := HeaderOf(c, hop.span);
      var tracestate := if header.Some? then Some(hop.span.value.tracestate) else None;
      WithHeaders(
        LineageEnv(c, l, base, hop.identity)
        + Defined(c.parentSessionIdEnv, Some(hop.sessionId))
        + Defined(c.parentTraceIdEnv, if header.Some? then Some(hop.span.value.traceId) else None)
        + Defined(c.parentSpanIdEnv, if header.Some? then Some(hop.span.value.spanId) else None)
        + Defined(c.spawnIdEnv, Some(hop.spawnId))
        + Defined("traceparent", header)
        + Defined("tracestate", tracestate),
        header, tracestate)
  }

  method SanitizeEnvironment(c: Config, env: Env) returns (sanitized: Env)
    ensures sanitized == Sanitize(c, env)
  {
    sanitized := env;
    var keys := Keys(c);
    var i := 0;
    while i < |keys|
      invariant 0 <= i <= |keys|
      invariant sanitized == env - (set k | k in keys[..i])
    {
      assert keys[..i + 1] == keys[..i] + [keys[i]];
      sanitized := sanitized - {keys[i]};
      i := i + 1;
    }
    assert keys[..i] == keys;
  }

  // ----- the variables do not interfere -----

  /** The thirteen configured names and the four headers are pairwise different. */
  lemma ValidNamesAreSeparate(c: Config)
    requires NamesValid(c)
    ensures Distinct(Keys(c))
  {
    hide WellFormedName;
    HeadersInUpperCase();
    var k, n := Keys(c), Names(c);
    forall i, j | 0 <= i < j < 17 ensures k[i] != k[j] {
      if j < 13 {
        assert k[i] == n[i] && k[j] == n[j] && Upper(n[i]) != Upper(n[j]);
      } else if i < 13 {
        assert k[i] == n[i] && k[j] == HEADERS[j - 13] && Upper(n[i]) != Upper(HEADERS[j - 13]);
      } else {
        assert k[i] == HEADERS[i - 13] && k[j] == HEADERS[j - 13];
      }
    }
  }

  lemma HeadersInUpperCase()
    ensures forall i | 0 <= i < 4 :: Upper(HEADERS[i]) == "TRACEPARENT" || Upper(HEADERS[i]) == "TRACESTATE"
  {
    assert Upper("traceparent") == "TRACEPARENT" && Upper("tracestate") == "TRACESTATE";
    assert Upper("TRACEPARENT") == "TRACEPARENT" && Upper("TRACESTATE") == "TRACESTATE";
  }

  predicate Enabled(c: Config) {
    c.workflowEnabled && c.propagateToSubagents
  }

  function Nonempty(value: string): Option<string> {
    if value == "" then None else Some(value)
  }

  /** What the merged maps say of one variable, the last writer first. */
  function Written(c: Config, l: Lineage, hop: Hop, k: string): Option<string> {
    var header := HeaderOf(c, hop.span);
    if k in HEADERS then
      if k == "traceparent" then header
      else if k == "tracestate" && header.Some? then Nonempty(hop.span.value.tracestate) else None
    else if k == c.spawnIdEnv && hop.spawnId != "" then Some(hop.spawnId)
    else if k == c.parentSpanIdEnv && header.Some? then Some(hop.span.value.spanId)
    else if k == c.parentTraceIdEnv && header.Some? then Some(hop.span.value.traceId)
    else if k == c.parentSessionIdEnv && hop.sessionId != "" then Some(hop.sessionId)
    else if k in IdentityEnv(c, hop.identity) then Some(IdentityEnv(c, hop.identity)[k])
    else if k == c.depthEnv then Some(if l.depth >= 0 then Decimal(l.depth) else "-" + Decimal(-l.depth))
    else if k == c.rootIdEnv then Some(l.rootAgentId)
    else if k == c.parentIdEnv then Some(l.agentId)
    else if k == c.workflowIdEnv then Some(l.workflowId)
    else None
  }

  lemma GetPlus(a: Env, b: Env, k: string)
    ensures Get(a + b, k) == if k in b then Get(b, k) else Get(a, k)
  {
  }

  lemma LineageEnvAt(c: Config, l: Lineage, extra: Env, identity: Option<Descriptor>, k: string)
    requires Enabled(c) && k in Keys(c)
    ensures Get(LineageEnv(c, l, extra, identity), k) ==
              if k in IdentityEnv(c, identity) then Get(IdentityEnv(c, identity), k)
              else if k == c.depthEnv then Some(if l.depth >= 0 then Decimal(l.depth) else "-" + Decimal(-l.depth))
              else if k == c.rootIdEnv then Some(l.rootAgentId)
              else if k == c.parentIdEnv then Some(l.agentId)
              else if k == c.workflowIdEnv then Some(l.workflowId)
              else None
  {
    hide Decimal, IdentityEnv;
    assert k !in Sanitize(c, extra);
  }

  /** With propagation disabled nothing of the lineage is written. */
  lemma DisabledWritesNothing(c: Config, l: Lineage, extra: Env, identity: Option<Descriptor>, k: string)
    requires !(c.workflowEnabled && c.propagateToSubagents)
    ensures Get(LineageEnv(c, l, extra, identity), k) == if k in Keys(c) then None else Get(extra, k)
  {
  }

  lemma HeadersAt(env: Env, traceparent: Option<string>, tracestate: Option<string>, k: string)
    ensures Get(WithHeaders(env, traceparent, tracestate), k) ==
              if k in HEADERS then
                if k == "traceparent" then traceparent
                else if k == "tracestate" && traceparent.Some? && Truthy(tracestate) then tracestate else None
              else Get(env, k)
  {
  }

  lemma EncodedAt(c: Config, l: Lineage, hop: Hop, k: string)
    requires Enabled(c) && k in Keys(c)
    ensures Get(Encode(c, l, hop), k) == Written(c, l, hop, k)
  {
    hide Decimal, Traceparent, IdentityEnv, LineageEnv, WithHeaders, Sanitize;
    var header := HeaderOf(c, hop.span);
    assert header.Some? ==> hop.span.value.traceId != "" && hop.span.value.spanId != "" && header.value != "" by {
      TraceparentIsNotEmpty(hop);
    }
    var tracestate := if header.Some? then Some(hop.span.value.tracestate) else None;
    var e0 := LineageEnv(c, l, Sanitize(c, hop.base), hop.identity);
    var d1 := Defined(c.parentSessionIdEnv, Some(hop.sessionId));
    var d2 := Defined(c.parentTraceIdEnv, if header.Some? then Some(hop.span.value.traceId) else None);
    var d3 := Defined(c.parentSpanIdEnv, if header.Some? then Some(hop.span.value.spanId) else None);
    var d4 := Defined(c.spawnIdEnv, Some(hop.spawnId));
    var d5, d6 := Defined("traceparent", header), Defined("tracestate", tracestate);
    LineageEnvAt(c, l, Sanitize(c, hop.base), hop.identity, k);
    HeadersAt(e0 + d1 + d2 + d3 + d4 + d5 + d6, header, tracestate, k);
    GetPlus(e0 + d1 + d2 + d3 + d4 + d5, d6, k);
    GetPlus(e0 + d1 + d2 + d3 + d4, d5, k);
    GetPlus(e0 + d1 + d2 + d3, d4, k);
    GetPlus(e0 + d1 + d2, d3, k);
    GetPlus(e0 + d1, d2, k);
    GetPlus(e0, d1, k);
  }

  lemma TraceparentIsNotEmpty(hop: Hop)
    ensures hop.span.Some? ==> Traceparent(hop.span.value.traceId, hop.span.value.spanId, hop.span.value.flags) != ""
  {
  }

  /** What an encoded environment says, variable by variable in the order of `Keys`; the
      inherited environment has no say. */
  function Field(c: Config, l: Lineage, hop: Hop, i: nat): Option<string>
    requires i < 17 && l.depth >= 0
  {
    var header := HeaderOf(c, hop.span);
    match i
    case 0 => Some(l.workflowId)
    case 2 => Some(l.agentId)
    case 3 => Some(l.rootAgentId)
    case 4 => Nonempty(hop.sessionId)
    case 5 => if header.Some? then Some(hop.span.value.traceId) else None
    case 6 => if header.Some? then Some(hop.span.value.spanId) else None
    case 7 => Some(Decimal(l.depth))
    case 8 => Nonempty(hop.spawnId)
    case 9 => if hop.identity.Some? then Some(ENVELOPE_VERSION) else None
    case 10 => if hop.identity.Some? then Some(hop.identity.value.displayName) else None
    case 11 => if hop.identity.Some? then Some(hop.identity.value.role) else None
    case 12 => if hop.identity.Some? then Some(hop.identity.value.capability) else None
    case 13 => header
    case 14 => if header.Some? then Nonempty(hop.span.value.tracestate) else None
    case _ => None
  }

  lemma KeysByIndex(c: Config)
    ensures var k := Keys(c);
            && |k| == 17 && k[0] == c.workflowIdEnv && k[1] == c.idEnv && k[2] == c.parentIdEnv && k[3] == c.rootIdEnv
            && k[4] == c.parentSessionIdEnv && k[5] == c.parentTraceIdEnv
            && k[6] == c.parentSpanIdEnv && k[7] == c.depthEnv
            && k[8] == c.spawnIdEnv && k[9] == c.envelopeVersionEnv && k[10] == c.displayNameEnv && k[11] == c.roleEnv
            && k[12] == c.capabilityEnv && k[13] == "traceparent" && k[14] == "tracestate" && k[15] == "TRACEPARENT"
            && k[16] == "TRACESTATE"
  {
  }

  lemma SameKey(c: Config, i: nat, j: nat)
    requires Distinct(Keys(c)) && i < 17 && j < 17
    ensures Keys(c)[i] == Keys(c)[j] <==> i == j
  {
  }

  lemma HeaderKeys(c: Config, i: nat)
    requires Distinct(Keys(c)) && i < 17
    ensures Keys(c)[i] in HEADERS <==> i >= 13
  {
    KeysByIndex(c);
    forall j | 13 <= j < 17 ensures Keys(c)[i] == Keys(c)[j] <==> i == j {
      SameKey(c, i, j);
    }
  }

  lemma EncodedField(c: Config, l: Lineage, hop: Hop, i: nat)
    requires Distinct(Keys(c)) && Enabled(c) && l.depth >= 0 && i < 17
    ensures Get(Encode(c, l, hop), Keys(c)[i]) == Field(c, l, hop, i)
  {
    hide Encode, Keys, Decimal, HeaderOf, Distinct, Traceparent;
    KeysByIndex(c);
    EncodedAt(c, l, hop, Keys(c)[i]);
    HeaderKeys(c, i);
    forall j | 0 <= j < 17 ensures Keys(c)[i] == Keys(c)[j] <==> i == j {
      SameKey(c, i, j);
    }
  }

  lemma EncodedFields(c: Config, l: Lineage, hop: Hop)
    requires NamesValid(c) && Enabled(c) && l.depth >= 0
    ensures var env, header := Encode(c, l, hop), HeaderOf(c, hop.span);
            && Get(env, c.workflowIdEnv) == Some(l.workflowId) && Get(env, c.idEnv) == None
            && Get(env, c.parentIdEnv) == Some(l.agentId) && Get(env, c.rootIdEnv) == Some(l.rootAgentId)
            && Get(env, c.parentSessionIdEnv) == Nonempty(hop.sessionId)
            && Get(env, c.parentTraceIdEnv) == (if header.Some? then Some(hop.span.value.traceId) else None)
            && Get(env, c.parentSpanIdEnv) == (if header.Some? then Some(hop.span.value.spanId) else None)
            && Get(env, c.depthEnv) == Some(Decimal(l.depth)) && Get(env, c.spawnIdEnv) == Nonempty(hop.spawnId)
            && Get(env, c.envelopeVersionEnv) == (if hop.identity.Some? then Some(ENVELOPE_VERSION) else None)
            && Get(env, c.displayNameEnv) == (if hop.identity.Some? then Some(hop.identity.value.displayName) else None)
            && Get(env, c.roleEnv) == (if hop.identity.Some? then Some(hop.identity.value.role) else None)
            && Get(env, c.capabilityEnv) == (if hop.identity.Some? then Some(hop.identity.value.capability) else None)
            && Get(env, "traceparent") == header
            && Get(env, "tracestate") == (if header.Some? then Nonempty(hop.span.value.tracestate) else None)
            && Get(env, "TRACEPARENT") == None && Get(env, "TRACESTATE") == None
  {
    hide Encode, Keys, Decimal, HeaderOf, Distinct, NamesValid, Get;
    ValidNamesAreSeparate(c);
    KeysByIndex(c);
    forall i | 0 <= i < 17 ensures Get(Encode(c, l, hop), Keys(c)[i]) == Field(c, l, hop, i) {
      EncodedField(c, l, hop, i);
    }
  }

  // ----- what the child makes of it -----

  /** What the child can read: identifiers that are lineage values, a depth within bounds, and
      a trace state, if one is sent, that is well formed. A caller can check it beforehand. */
  predicate Readable(c: Config, l: Lineage, hop: Hop) {
    && ValidValue(l.workflowId) && ValidValue(l.agentId) && ValidValue(l.rootAgentId)
    && ValidValue(hop.sessionId) && ValidValue(hop.spawnId) && l.depth <= MAXIMUM_DEPTH
    && (HeaderOf(c, hop.span).Some? ==> hop.span.value.tracestate == "" || ValidTracestate(hop.span.value.tracestate))
  }

  function ReceivedTrace(c: Config, hop: Hop): Option<TraceContext> {
    if HeaderOf(c, hop.span).None? then None
    else
      Some(TraceContext(ParentSpan(Lower(hop.span.value.traceId), Lower(hop.span.value.spanId),
                                   hop.span.value.flags % 256),
                        Nonempty(hop.span.value.tracestate)))
  }

  function Received(c: Config, l: Lineage, hop: Hop): Propagated {
    var trace := ReceivedTrace(c, hop);
    Propagated(
      Some(l.workflowId), None, Some(l.agentId), Some(l.rootAgentId), Nonempty(hop.sessionId),
      if trace.Some? then Some(trace.value.parent.traceId) else None,
      if trace.Some? then Some(trace.value.parent.spanId) else None,
      Some(l.depth), Nonempty(hop.spawnId), hop.identity, trace)
  }

  lemma EncodedTrace(c: Config, l: Lineage, hop: Hop)
    requires NamesValid(c) && Enabled(c) && l.depth >= 0
    ensures var env := Encode(c, l, hop);
            && (ReadTrace(env).Ok? <==> HeaderOf(c, hop.span).Some? ==>
                  hop.span.value.tracestate == "" || ValidTracestate(hop.span.value.tracestate))
            && (ReadTrace(env).Ok? ==> ReadTrace(env).value == ReceivedTrace(c, hop))
            && TraceMetadataIssue(c, env, ReceivedTrace(c, hop)) == None
  {
    hide Encode, NamesValid, ValidTracestate, ParseTraceparent, Traceparent, Lower, IsId;
    EncodedFields(c, l, hop);
    var header := HeaderOf(c, hop.span);
    if header.Some? {
      TraceparentRoundTrip(hop.span.value.traceId, hop.span.value.spanId, hop.span.value.flags);
      HeaderTexts(hop.span.value);
    }
  }

  lemma HeaderTexts(span: SpanContext)
    requires IsId(span.traceId, 32) && IsId(span.spanId, 16)
    ensures span.traceId != "" && span.spanId != "" && Traceparent(span.traceId, span.spanId, span.flags) != ""
  {
  }

  lemma EncodedIdentity(c: Config, l: Lineage, hop: Hop)
    requires NamesValid(c) && Enabled(c) && l.depth >= 0 && (hop.identity.Some? ==> ValidDescriptor(hop.identity.value))
    ensures ReadIdentity(c, Encode(c, l, hop)) == Ok(hop.identity)
  {
    hide Encode, NamesValid, ValidDescriptor;
    EncodedFields(c, l, hop);
  }

  lemma DecimalIsNotEmpty(n: nat)
    ensures Decimal(n) != ""
  {
  }

  lemma EncodedIsValid(c: Config, l: Lineage, hop: Hop, number: Number)
    requires NamesValid(c) && Enabled(c) && ReadsDecimals(number) && 0 <= l.depth <= MAX_SAFE
    requires hop.identity.Some? ==> ValidDescriptor(hop.identity.value)
    ensures EnvironmentValid(c, Encode(c, l, hop), number) <==>
              && ValidValue(l.workflowId) && ValidValue(l.agentId) && ValidValue(l.rootAgentId)
              && ValidValue(hop.sessionId) && ValidValue(hop.spawnId) && l.depth <= MAXIMUM_DEPTH
  {
    hide Encode, NamesValid, IsId, Decimal;
    EncodedFields(c, l, hop);
    DecimalIsNotEmpty(l.depth);
  }

  /** Main result: the child reads exactly what the parent encoded, whatever environment they
      both inherit, if and only if what was encoded is readable. */
  lemma RoundTrip(c: Config, l: Lineage, hop: Hop, number: Number)
    requires NamesValid(c) && Enabled(c) && ReadsDecimals(number) && 0 <= l.depth <= MAX_SAFE
    requires hop.identity.Some? ==> ValidDescriptor(hop.identity.value)
    ensures Read(c, Encode(c, l, hop), true, number).Ok? <==> Readable(c, l, hop)
    ensures Readable(c, l, hop) ==> Read(c, Encode(c, l, hop), true, number) == Ok(Received(c, l, hop))
    ensures !Readable(c, l, hop) ==> Read(c, Encode(c, l, hop), true, number) == Err(MalformedEnvelope)
  {
    hide Encode, NamesValid, ValidDescriptor, ValidValue, ValidTracestate, EnvironmentValid, ReadIdentity,
         TraceMetadataIssue, Decimal, HeaderOf, ReceivedTrace;
    EncodedFields(c, l, hop);
    EncodedIdentity(c, l, hop);
    EncodedIsValid(c, l, hop, number);
    EncodedTrace(c, l, hop);
    if ReadTrace(Encode(c, l, hop)).Err? {
      TraceErrors(c, l, hop);
    }
    DecimalIsNotEmpty(l.depth);
    HeadersTogether(c, hop);
  }

  lemma HeadersTogether(c: Config, hop: Hop)
    ensures HeaderOf(c, hop.span).Some? <==> ReceivedTrace(c, hop).Some?
  {
  }

  lemma TraceReceived(c: Config, hop: Hop)
    requires HeaderOf(c, hop.span).Some?
    ensures ReceivedTrace(c, hop).value.parent.traceId == Lower(hop.span.value.traceId)
    ensures ReceivedTrace(c, hop).value.parent.spanId == Lower(hop.span.value.spanId)
  {
  }

  lemma TraceErrors(c: Config, l: Lineage, hop: Hop)
    requires NamesValid(c) && Enabled(c) && l.depth >= 0 && ReadTrace(Encode(c, l, hop)).Err?
    ensures ReadTrace(Encode(c, l, hop)).reason == MalformedEnvelope
  {
    hide Encode, NamesValid;
    EncodedFields(c, l, hop);
  }

  // ----- inherited variables have no say -----

  ghost predicate SameKeys(c: Config, a: Env, b: Env) {
    forall k | k in Keys(c) :: Get(a, k) == Get(b, k)
  }

  lemma SameFields(c: Config, a: Env, b: Env)
    requires SameKeys(c, a, b)
    ensures forall i | 0 <= i < 17 :: Get(a, Keys(c)[i]) == Get(b, Keys(c)[i])
  {
    hide Get;
  }

  lemma IdentityReadsOnlyKeys(c: Config, a: Env, b: Env)
    requires SameKeys(c, a, b)
    ensures ReadIdentity(c, a) == ReadIdentity(c, b)
  {
    hide ValidDescriptor, Get, Keys, SameKeys;
    SameFields(c, a, b);
    KeysByIndex(c);
    var k := Keys(c);
    assert Get(a, k[9]) == Get(b, k[9]) && Get(a, k[10]) == Get(b, k[10]);
    assert Get(a, k[11]) == Get(b, k[11]) && Get(a, k[12]) == Get(b, k[12]);
  }

  lemma ValidityReadsOnlyKeys(c: Config, a: Env, b: Env, number: Number)
    requires SameKeys(c, a, b)
    ensures EnvironmentValid(c, a, number) == EnvironmentValid(c, b, number)
  {
    hide NamesValid, ValidValue, IsId, Get, Keys, SameKeys;
    SameFields(c, a, b);
    KeysByIndex(c);
    var k := Keys(c);
    assert Get(a, k[0]) == Get(b, k[0]) && Get(a, k[1]) == Get(b, k[1]) && Get(a, k[2]) == Get(b, k[2]);
    assert Get(a, k[3]) == Get(b, k[3]) && Get(a, k[4]) == Get(b, k[4]) && Get(a, k[5]) == Get(b, k[5]);
    assert Get(a, k[6]) == Get(b, k[6]) && Get(a, k[7]) == Get(b, k[7]) && Get(a, k[8]) == Get(b, k[8]);
    assert Get(a, k[12]) == Get(b, k[12]);
  }

  lemma TraceReadsOnlyKeys(c: Config, a: Env, b: Env)
    requires SameKeys(c, a, b)
    ensures ReadTrace(a) == ReadTrace(b)
    ensures forall trace :: TraceMetadataIssue(c, a, trace) == TraceMetadataIssue(c, b, trace)
  {
    hide ParseTraceparent, ValidTracestate, Get, Keys, SameKeys;
    SameFields(c, a, b);
    KeysByIndex(c);
    var k := Keys(c);
    assert Get(a, k[13]) == Get(b, k[13]) && Get(a, k[14]) == Get(b, k[14]);
    assert Get(a, k[15]) == Get(b, k[15]) && Get(a, k[16]) == Get(b, k[16]);
    assert Get(a, k[5]) == Get(b, k[5]) && Get(a, k[6]) == Get(b, k[6]);
  }

  lemma CompletenessReadsOnlyKeys(c: Config, a: Env, b: Env)
    requires SameKeys(c, a, b)
    ensures CompletenessIssue(c, a) == CompletenessIssue(c, b)
  {
    hide Get, Keys, SameKeys;
    SameFields(c, a, b);
    KeysByIndex(c);
    var k := Keys(c);
    assert Get(a, k[0]) == Get(b, k[0]) && Get(a, k[1]) == Get(b, k[1]) && Get(a, k[2]) == Get(b, k[2]);
    assert Get(a, k[3]) == Get(b, k[3]) && Get(a, k[7]) == Get(b, k[7]) && Get(a, k[8]) == Get(b, k[8]);
  }

  /** A child looks at the propagation variables only. */
  lemma CreateReadsOnlyKeys(c: Config, a: Env, b: Env, o: Options, number: Number)
    requires SameKeys(c, a, b)
    ensures Create(c, a, o, number) == Create(c, b, o, number)
  {
    hide ReadIdentity, EnvironmentValid, ReadTrace, TraceMetadataIssue, CompletenessIssue, Make, Get, Keys, SameKeys;
    IdentityReadsOnlyKeys(c, a, b);
    ValidityReadsOnlyKeys(c, a, b, number);
    TraceReadsOnlyKeys(c, a, b);
    CompletenessReadsOnlyKeys(c, a, b);
    SameFields(c, a, b);
    KeysByIndex(c);
    var k := Keys(c);
    assert Get(a, k[0]) == Get(b, k[0]) && Get(a, k[1]) == Get(b, k[1]) && Get(a, k[2]) == Get(b, k[2]);
    assert Get(a, k[3]) == Get(b, k[3]) && Get(a, k[4]) == Get(b, k[4]) && Get(a, k[5]) == Get(b, k[5]);
    assert Get(a, k[6]) == Get(b, k[6]) && Get(a, k[7]) == Get(b, k[7]) && Get(a, k[8]) == Get(b, k[8]);
    assert Read(c, a, o.trusted, number) == Read(c, b, o.trusted, number);
  }

  /** Main result: the child's lineage does not depend on the environment the parent itself
      inherited, stale propagation variables included, whether or not propagation is enabled
      and whatever the configured names. */
  lemma InheritedVariablesHaveNoSay(c: Config, l: Lineage, hop: Hop, base: Env, o: Options, number: Number)
    ensures Create(c, Encode(c, l, hop), o, number) == Create(c, Encode(c, l, hop.(base := base)), o, number)
  {
    hide Create, Encode, Keys, Written, Get;
    var other := hop.(base := base);
    forall k | k in Keys(c) ensures Get(Encode(c, l, hop), k) == Get(Encode(c, l, other), k) {
      if Enabled(c) {
        EncodedAt(c, l, hop, k);
        EncodedAt(c, l, other, k);
        WrittenIgnoresBase(c, l, hop, base, k);
      } else {
        DisabledAt(c, l, hop, k);
        DisabledAt(c, l, other, k);
      }
    }
    CreateReadsOnlyKeys(c, Encode(c, l, hop), Encode(c, l, other), o, number);
  }

  lemma WrittenIgnoresBase(c: Config, l: Lineage, hop: Hop, base: Env, k: string)
    ensures Written(c, l, hop, k) == Written(c, l, hop.(base := base), k)
  {
    hide Decimal, IdentityEnv;
  }

  lemma DisabledAt(c: Config, l: Lineage, hop: Hop, k: string)
    requires !Enabled(c) && k in Keys(c)
    ensures Get(Encode(c, l, hop), k) == None
  {
  }

  /** Without propagation the child is a root of its own, whatever it inherits. */
  lemma DisabledPropagationMakesRoots(c: Config, l: Lineage, hop: Hop, o: Options, number: Number)
    requires NamesValid(c) && !Enabled(c)
    ensures Create(c, Encode(c, l, hop), o, number) == Ok(Make(NOTHING, None, o))
    ensures var root := Make(NOTHING, None, o);
            && root.depth == 0 && root.rootAgentId == root.agentId && root.parentAgentId == None && !root.orphaned
  {
    hide NamesValid, Create, Encode, Keys, Make;
    forall k | k in Keys(c) ensures Get(Encode(c, l, hop), k) == None {
      DisabledAt(c, l, hop, k);
    }
    CreateReadsOnlyKeys(c, Encode(c, l, hop), map[], o, number);
    EmptyEnvironmentMakesRoots(c, o, number);
  }

  lemma EmptyEnvironmentMakesRoots(c: Config, o: Options, number: Number)
    requires NamesValid(c)
    ensures Create(c, map[], o, number) == Ok(Make(NOTHING, None, o))
    ensures var root := Make(NOTHING, None, o);
            && root.depth == 0 && root.rootAgentId == root.agentId && root.parentAgentId == None && !root.orphaned
  {
    hide NamesValid, Keys;
    assert forall name :: Get(map[], name) == None;
    assert CompletenessIssue(c, map[]) == None;
    assert Read(c, map[], o.trusted, number) == Ok(NOTHING);
  }

  // ----- what any environment is read as -----

  predicate Given(env: Env, name: string) {
    name in env && env[name] != ""
  }

  /** The descriptor variables are there without a version, or not all there with it. */
  predicate PartOfIdentity(c: Config, env: Env) {
    if c.envelopeVersionEnv in env then
      env[c.envelopeVersionEnv] == "1" && !(c.displayNameEnv in env && c.roleEnv in env && c.capabilityEnv in env)
    else c.displayNameEnv in env || c.roleEnv in env || c.capabilityEnv in env
  }

  predicate BadIdentity(c: Config, env: Env) {
    && c.envelopeVersionEnv in env && c.displayNameEnv in env && c.roleEnv in env && c.capabilityEnv in env
    && !ValidDescriptor(Descriptor(env[c.displayNameEnv], env[c.roleEnv], env[c.capabilityEnv]))
  }

  /** The names clash or are no names, or a value that is not empty is not of its form. */
  ghost predicate BadValues(c: Config, env: Env, number: Number) {
    || !NamesValid(c)
    || (exists name :: Given(env, name) && !ValidValue(env[name])
                       && name in [c.workflowIdEnv, c.idEnv, c.parentIdEnv, c.rootIdEnv, c.parentSessionIdEnv,
                                   c.spawnIdEnv, c.capabilityEnv])
    || (Given(env, c.parentTraceIdEnv) && !IsId(env[c.parentTraceIdEnv], 32))
    || (Given(env, c.parentSpanIdEnv) && !IsId(env[c.parentSpanIdEnv], 16))
    || (Given(env, c.depthEnv) && (number(env[c.depthEnv]) == None || !(0 <= number(env[c.depthEnv]).value <= 64)))
  }

  predicate BadHeaders(env: Env) {
    && Given(env, "traceparent")
    && (ParseTraceparent(env["traceparent"]) == None
        || (Given(env, "tracestate") && !ValidTracestate(env["tracestate"])))
  }

  predicate OtherTrace(c: Config, env: Env) {
    && Given(env, "traceparent") && Given(env, c.parentTraceIdEnv) && Given(env, c.parentSpanIdEnv)
    && ParseTraceparent(env["traceparent"]).Some?
    && var parent := ParseTraceparent(env["traceparent"]).value;
       Lower(env[c.parentTraceIdEnv]) != parent.traceId || Lower(env[c.parentSpanIdEnv]) != parent.spanId
  }

  /** Why a trusted environment cannot be read: the first that applies, in this order. */
  ghost function ReadFailure(c: Config, env: Env, number: Number): Option<Reason> {
    if c.envelopeVersionEnv in env && env[c.envelopeVersionEnv] != "1" then Some(UnsupportedIdentityEnvelope)
    else if PartOfIdentity(c, env) then Some(PartialEnvelope)
    else if BadIdentity(c, env) || BadValues(c, env, number) then Some(MalformedEnvelope)
    else if Given(env, "TRACEPARENT") || Given(env, "TRACESTATE") then Some(StaleEnvelope)
    else if Given(env, "tracestate") && !Given(env, "traceparent") then Some(PartialEnvelope)
    else if BadHeaders(env) then Some(MalformedEnvelope)
    else if Given(env, c.parentTraceIdEnv) != Given(env, c.parentSpanIdEnv) then Some(PartialEnvelope)
    else if OtherTrace(c, env) then Some(StaleEnvelope)
    else None
  }

  /** And what completeness, if it is required, finds in an environment that can be read. */
  ghost function CompletenessFailure(c: Config, env: Env): Option<Reason> {
    if forall name | name in Keys(c) :: !Given(env, name) then None
    else if Given(env, c.idEnv) then Some(StaleEnvelope)
    else if Given(env, c.workflowIdEnv) && Given(env, c.parentIdEnv) && Given(env, c.rootIdEnv)
            && Given(env, c.depthEnv) && Given(env, c.spawnIdEnv) then None
    else Some(PartialEnvelope)
  }

  lemma ReadFailsExactly(c: Config, env: Env, number: Number)
    ensures match Read(c, env, true, number)
            case Err(reason) => ReadFailure(c, env, number) == Some(reason)
            case Ok(_) => ReadFailure(c, env, number) == None
  {
    hide NamesValid, ValidDescriptor, ValidValue, ParseTraceparent, ValidTracestate, Lower, IsId;
    ValuesAreBad(c, env, number);
    assert forall name :: Given(env, name) <==> Truthy(Get(env, name));
    hide EnvironmentValid, BadValues;
  }

  lemma ValuesAreBad(c: Config, env: Env, number: Number)
    ensures BadValues(c, env, number) <==> !EnvironmentValid(c, env, number)
  {
    hide NamesValid, ValidValue, IsId;
    var names := [c.workflowIdEnv, c.idEnv, c.parentIdEnv, c.rootIdEnv, c.parentSessionIdEnv, c.spawnIdEnv,
                  c.capabilityEnv];
    assert names[0] in names && names[1] in names && names[2] in names && names[3] in names;
    assert names[4] in names && names[5] in names && names[6] in names;
    assert forall name :: Given(env, name) <==> Truthy(Get(env, name));
    assert forall name | name in names :: ValueOk(env, name) <==> (Given(env, name) ==> ValidValue(env[name]));
  }

  lemma CompletenessFailsExactly(c: Config, env: Env)
    ensures CompletenessIssue(c, env) == CompletenessFailure(c, env)
  {
    assert forall name :: Given(env, name) <==> Truthy(Get(env, name));
    hide Given, Get;
    if name :| name in Keys(c) && Given(env, name) {
      var i :| 0 <= i < |Keys(c)| && Keys(c)[i] == name;
      assert Truthy(Get(env, Keys(c)[i]));
    }
  }

  /** Why a lineage is refused, or started over if it may fail open. */
  ghost function WhyNot(c: Config, env: Env, o: Options, number: Number): Option<Reason> {
    if !o.trusted then None
    else if ReadFailure(c, env, number).Some? then ReadFailure(c, env, number)
    else if o.requireComplete then CompletenessFailure(c, env)
    else None
  }

  /** Main result: whatever the environment, a lineage is refused exactly for the first reason
      that applies, unless it may fail open. */
  lemma CreationFailsExactly(c: Config, env: Env, o: Options, number: Number)
    ensures var created, why := Create(c, env, o, number), WhyNot(c, env, o, number);
            match why
            case Some(reason) =>
              if o.failOpen then
                && created.Ok? && created.value.failure == why && created.value.orphaned
                && created.value.agentId == "agent-" + o.generated(0)
                && created.value.workflowId == "workflow-" + o.generated(1)
              else created == Err(reason)
            case None => created.Ok? && created.value.failure == None
  {
    assert !o.trusted ==> Read(c, env, o.trusted, number) == Ok(NOTHING);
    hide Read, ReadFailure, CompletenessIssue, CompletenessFailure;
    ReadFailsExactly(c, env, number);
    CompletenessFailsExactly(c, env);
  }

  /** Role, display name and capability are those of the options, or else of the descriptor, or
      else the default role and nothing. */
  ghost predicate Described(l: Lineage, o: Options, identity: Option<Descriptor>, role: string) {
    && (o.role.Some? ==> l.role == o.role.value)
    && (o.role.None? && identity.Some? ==> l.role == identity.value.role)
    && (o.role.None? && identity.None? ==> l.role == role)
    && (o.displayName.Some? ==> l.displayName == o.displayName)
    && (o.displayName.None? && identity.Some? ==> l.displayName == Some(identity.value.displayName))
    && (o.displayName.None? && identity.None? ==> l.displayName == None)
    && (o.capability.Some? ==> l.capability == o.capability)
    && (o.capability.None? && identity.Some? ==> l.capability == Some(identity.value.capability))
    && (o.capability.None? && identity.None? ==> l.capability == None)
  }

  /** Main result: every field of a lineage that is accepted is the variable of its own name,
      or its default: a new identifier, the agent itself for the root, one level below the
      given depth, and the identifiers of the header before those of the variables. */
  lemma AcceptedLineageIs(c: Config, env: Env, o: Options, number: Number, l: Lineage)
    requires o.trusted && Create(c, env, o, number) == Ok(l) && l.failure == None
    ensures && l.agentId == (if c.idEnv in env then env[c.idEnv] else "agent-" + o.generated(0))
            && l.workflowId == (if c.workflowIdEnv in env then env[c.workflowIdEnv]
                                else if c.idEnv in env then "workflow-" + o.generated(0)
                                else "workflow-" + o.generated(1))
            && l.parentAgentId == (if c.parentIdEnv in env then Some(env[c.parentIdEnv]) else None)
            && l.rootAgentId == (if Given(env, c.rootIdEnv) then env[c.rootIdEnv] else l.agentId)
            && l.parentSessionId == (if c.parentSessionIdEnv in env then Some(env[c.parentSessionIdEnv]) else None)
            && l.spawnId == (if c.spawnIdEnv in env then Some(env[c.spawnIdEnv]) else None)
            && (l.orphaned <==> Given(env, c.parentIdEnv) && !Given(env, c.rootIdEnv))
            && (!Given(env, c.parentIdEnv) ==> l.depth == 0)
            && (Given(env, c.parentIdEnv) && !Given(env, c.depthEnv) ==> l.depth == 1)
            && (Given(env, c.parentIdEnv) && Given(env, c.depthEnv) ==> Some(l.depth - 1) == number(env[c.depthEnv]))
    ensures var identity := if c.envelopeVersionEnv in env && c.displayNameEnv in env && c.roleEnv in env
                               && c.capabilityEnv in env
                            then Some(Descriptor(env[c.displayNameEnv], env[c.roleEnv], env[c.capabilityEnv]))
                            else None;
            Described(l, o, identity, if Given(env, c.parentIdEnv) then "subagent" else "root")
    ensures if Given(env, "traceparent") then
              && ParseTraceparent(env["traceparent"]).Some?
              && var parent := ParseTraceparent(env["traceparent"]).value;
                 && l.parentTraceId == Some(parent.traceId) && l.parentSpanId == Some(parent.spanId)
                 && l.trace == Some(TraceContext(parent, if Given(env, "tracestate") then Some(env["tracestate"])
                                                         else None))
            else
              && l.trace == None
              && l.parentTraceId == (if c.parentTraceIdEnv in env then Some(env[c.parentTraceIdEnv]) else None)
              && l.parentSpanId == (if c.parentSpanIdEnv in env then Some(env[c.parentSpanIdEnv]) else None)
  {
    hide Read, CompletenessIssue, ReadFailure, CompletenessFailure, ParseTraceparent;
    CreationFailsExactly(c, env, o, number);
    ReadIs(c, env, number);
    assert l == Make(Read(c, env, true, number).value, None, o);
    hide Create, WhyNot;
  }

  /** What was read, variable by variable. */
  lemma ReadIs(c: Config, env: Env, number: Number)
    requires ReadFailure(c, env, number) == None
    ensures Read(c, env, true, number).Ok?
    ensures var p := Read(c, env, true, number).value;
            && p.workflowId == Get(env, c.workflowIdEnv) && p.agentId == Get(env, c.idEnv)
            && p.parentAgentId == Get(env, c.parentIdEnv) && p.rootAgentId == Get(env, c.rootIdEnv)
            && p.parentSessionId == Get(env, c.parentSessionIdEnv) && p.spawnId == Get(env, c.spawnIdEnv)
            && p.depth == (if Given(env, c.depthEnv) then number(env[c.depthEnv]) else None)
            && (Given(env, c.depthEnv) ==> p.depth.Some?)
            && p.identity == (if c.envelopeVersionEnv in env && c.displayNameEnv in env && c.roleEnv in env
                                 && c.capabilityEnv in env
                              then Some(Descriptor(env[c.displayNameEnv], env[c.roleEnv], env[c.capabilityEnv]))
                              else None)
            && TraceIsRead(c, env, p)
  {
    hide NamesValid, ValidDescriptor, ValidValue, ParseTraceparent, ValidTracestate, Lower, IsId;
    ReadFailsExactly(c, env, number);
    ValuesAreBad(c, env, number);
    hide BadValues;
  }

  predicate TraceIsRead(c: Config, env: Env, p: Propagated) {
    if Given(env, "traceparent") then
      && ParseTraceparent(env["traceparent"]).Some?
      && var parent := ParseTraceparent(env["traceparent"]).value;
         && p.parentTraceId == Some(parent.traceId) && p.parentSpanId == Some(parent.spanId)
         && p.trace == Some(TraceContext(parent, if Given(env, "tracestate") then Some(env["tracestate"]) else None))
    else
      && p.trace == None
      && p.parentTraceId == Get(env, c.parentTraceIdEnv) && p.parentSpanId == Get(env, c.parentSpanIdEnv)
  }

  /** The names are in order exactly if each is a name and no two of them, or of them and the two
      headers, are the same but for their case. */
  lemma NamesAreValidExactly(c: Config)
    ensures NamesValid(c) <==>
              var names := Names(c) + ["traceparent", "tracestate"];
              && (forall i | 0 <= i < 13 :: WellFormedName(names[i]))
              && forall i, j | 0 <= i < 15 && 0 <= j < 15 && i != j :: Upper(names[i]) != Upper(names[j])
  {
    hide WellFormedName, Upper;
    HeadersInUpperCase();
    var n, names := Names(c), Names(c) + ["traceparent", "tracestate"];
    assert Upper("traceparent") == "TRACEPARENT" && Upper("tracestate") == "TRACESTATE" by { UpperHeaders(); }
    assert names[13] == "traceparent" && names[14] == "tracestate";
    assert forall i | 0 <= i < 13 :: names[i] == n[i];
  }

  lemma UpperHeaders()
    ensures Upper("traceparent") == "TRACEPARENT" && Upper("tracestate") == "TRACESTATE"
  {
  }

  // ----- children and chains -----

  /** Every lineage a process can create lies at most one level below the greatest depth an
      environment may claim. */
  lemma DepthIsBounded(c: Config, env: Env, o: Options, number: Number)
    requires Create(c, env, o, number).Ok?
    ensures 0 <= Create(c, env, o, number).value.depth <= MAXIMUM_DEPTH + 1
  {
  }

  predicate Complete(l: Lineage, hop: Hop) {
    l.workflowId != "" && l.agentId != "" && l.rootAgentId != "" && hop.spawnId != ""
  }

  lemma EncodedIsComplete(c: Config, l: Lineage, hop: Hop)
    requires NamesValid(c) && Enabled(c) && l.depth >= 0
    ensures CompletenessIssue(c, Encode(c, l, hop)) == if Complete(l, hop) then None else Some(PartialEnvelope)
  {
    hide Encode, NamesValid, Decimal, Keys;
    EncodedFields(c, l, hop);
    DecimalIsNotEmpty(l.depth);
    KeysByIndex(c);
    assert Truthy(Get(Encode(c, l, hop), Keys(c)[7]));
  }

  /** Main result: a child of a readable, complete envelope keeps the workflow and the root,
      has the encoder for its parent, lies one level deeper, and carries the spawn, descriptor
      and trace it was sent, the trace and span identifiers in lower case; from an unreadable
      envelope it starts over as an orphaned root if it may fail open, and fails otherwise. */
  lemma ChildOfEncoder(c: Config, l: Lineage, hop: Hop, o: Options, number: Number)
    requires NamesValid(c) && Enabled(c) && ReadsDecimals(number) && 0 <= l.depth <= MAX_SAFE && o.trusted
    requires hop.identity.Some? ==> ValidDescriptor(hop.identity.value)
    ensures var created := Create(c, Encode(c, l, hop), o, number);
            if Readable(c, l, hop) && (o.requireComplete ==> Complete(l, hop)) then
              && created.Ok?
              && var child := created.value;
                 && child.workflowId == l.workflowId && child.parentAgentId == Some(l.agentId)
                 && child.agentId == "agent-" + o.generated(0)
                 && (l.rootAgentId != "" ==> child.rootAgentId == l.rootAgentId)
                 && (l.agentId != "" ==> child.depth == l.depth + 1)
                 && child.spawnId == Nonempty(hop.spawnId) && child.parentSessionId == Nonempty(hop.sessionId)
                 && child.trace == ReceivedTrace(c, hop) && child.failure == None
                 && child.parentTraceId == (if HeaderOf(c, hop.span).Some? then Some(Lower(hop.span.value.traceId))
                                            else None)
                 && child.parentSpanId == (if HeaderOf(c, hop.span).Some? then Some(Lower(hop.span.value.spanId))
                                           else None)
                 && (l.rootAgentId == "" ==> child.rootAgentId == child.agentId)
                 && (l.agentId == "" ==> child.depth == 0)
                 && Described(child, o, hop.identity, if l.agentId == "" then "root" else "subagent")
                 && (child.orphaned <==> l.agentId != "" && l.rootAgentId == "")
            else if o.failOpen then
              && created.Ok?
              && var child := created.value;
                 && child.orphaned && child.failure.Some? && child.depth == 0 && child.parentAgentId == None
                 && child.rootAgentId == child.agentId == "agent-" + o.generated(0)
                 && child.workflowId == "workflow-" + o.generated(1)
                 && child.failure == Some(if Readable(c, l, hop) then PartialEnvelope else MalformedEnvelope)
                 && child.parentSessionId == child.parentTraceId == child.parentSpanId == child.spawnId == None
                 && child.trace == None && Described(child, o, None, "root")
            else created == Err(if Readable(c, l, hop) then PartialEnvelope else MalformedEnvelope)
  {
    hide Encode, NamesValid, Readable, Read, CompletenessIssue, ReceivedTrace;
    RoundTrip(c, l, hop, number);
    EncodedIsComplete(c, l, hop);
    HeadersTogether(c, hop);
    if HeaderOf(c, hop.span).Some? {
      TraceReceived(c, hop);
    }
  }

  /** A spawn and the options its child starts with. */
  datatype Spawning = Spawning(hop: Hop, options: Options)

  /** What a parent must put into a spawn for its child to accept it; the identifiers a
      process generates are lineage values. */
  ghost predicate Sound(c: Config, s: Spawning) {
    && s.options.trusted && ValidValue(s.hop.spawnId) && s.hop.spawnId != "" && ValidValue(s.hop.sessionId)
    && (s.hop.identity.Some? ==> ValidDescriptor(s.hop.identity.value))
    && (HeaderOf(c, s.hop.span).Some? ==>
         s.hop.span.value.tracestate == "" || ValidTracestate(s.hop.span.value.tracestate))
    && ValidValue("agent-" + s.options.generated(0))
  }

  ghost predicate Sendable(l: Lineage) {
    && ValidValue(l.workflowId) && l.workflowId != "" && ValidValue(l.agentId) && l.agentId != ""
    && ValidValue(l.rootAgentId) && l.rootAgentId != "" && 0 <= l.depth
  }

  /** The lineage at the end of a chain of spawns. */
  ghost function Descend(c: Config, l: Lineage, chain: seq<Spawning>, number: Number): Result<Lineage>
    decreases |chain|
  {
    if chain == [] then Ok(l)
    else
      match Create(c, Encode(c, l, chain[0].hop), chain[0].options, number)
      case Ok(child) => Descend(c, child, chain[1..], number)
      case Err(reason) => Err(reason)
  }

  /** Main result: along a chain of spawns the workflow and the root never change and the
      depth counts the spawns, down to one level below the depth limit. */
  lemma {:induction false} ChainsKeepTheirRoot(c: Config, l: Lineage, chain: seq<Spawning>, number: Number)
    requires NamesValid(c) && Enabled(c) && ReadsDecimals(number) && Sendable(l)
    requires (forall s | s in chain :: Sound(c, s)) && l.depth + |chain| <= MAXIMUM_DEPTH + 1
    ensures var end := Descend(c, l, chain, number);
            && end.Ok? && end.value.workflowId == l.workflowId && end.value.rootAgentId == l.rootAgentId
            && end.value.depth == l.depth + |chain| && Sendable(end.value)
            && (chain != [] ==> !end.value.orphaned && end.value.failure == None)
    decreases |chain|
  {
    hide NamesValid, Encode, Create, ValidValue, ValidTracestate, HeaderOf;
    if chain != [] {
      var s := chain[0];
      assert s in chain;
      ChildOfEncoder(c, l, s.hop, s.options, number);
      var child := Create(c, Encode(c, l, s.hop), s.options, number).value;
      assert child.agentId != "";
      ChainsKeepTheirRoot(c, child, chain[1..], number);
      assert chain[1..] == [] ==> Descend(c, child, chain[1..], number) == Ok(child);
    }
  }

  /** One level further no child accepts the envelope: a process that fails open starts a new
      workflow as an orphan. */
  lemma ChainsEndAtTheLimit(c: Config, l: Lineage, s: Spawning, number: Number)
    requires NamesValid(c) && Enabled(c) && ReadsDecimals(number) && Sendable(l) && Sound(c, s)
    requires MAXIMUM_DEPTH < l.depth <= MAX_SAFE
    ensures var end := Descend(c, l, [s], number);
            if s.options.failOpen then
              && end.Ok? && end.value.orphaned && end.value.depth == 0
              && end.value.failure == Some(MalformedEnvelope)
            else end == Err(MalformedEnvelope)
  {
    hide NamesValid, Encode, ValidValue, ValidTracestate, HeaderOf, Read;
    RoundTrip(c, l, s.hop, number);
    assert [s][1..] == [];
  }

  // ----- an agent identifier that is set but empty -----

  /** Main result: an agent gets the empty identifier if and only if it trusts an environment
      that is found in order and in which the identifier is set but empty. With completeness
      required, that is also the only identifier an agent ever takes from its environment. */
  lemma EmptyAgentIdentifierExactly(c: Config, env: Env, o: Options, number: Number)
    requires Create(c, env, o, number).Ok?
    ensures var agentId := Create(c, env, o, number).value.agentId;
            && (agentId == "" <==> o.trusted && Trusted(c, env, o, number).Ok? && Get(env, c.idEnv) == Some(""))
            && (o.requireComplete ==> agentId == "" || agentId == "agent-" + o.generated(0))
  {
    hide ReadIdentity, EnvironmentValid, ReadTrace, TraceMetadataIssue;
    KeysByIndex(c);
    if Truthy(Get(env, c.idEnv)) {
      assert Truthy(Get(env, Keys(c)[1]));
    }
  }

  /** Requiring completeness does not catch it: whether an environment is in order does not
      depend on whether the identifier is set but empty, or not set. */
  lemma CompletenessIgnoresEmptyIdentifiers(c: Config, env: Env, o: Options, number: Number)
    requires Get(env, c.idEnv) == Some("")
    ensures CompletenessIssue(c, env) == CompletenessIssue(c, env - {c.idEnv})
    ensures Trusted(c, env, o, number).Ok? <==> Trusted(c, env - {c.idEnv}, o, number).Ok?
  {
    hide NamesValid, ValidDescriptor, ValidValue, IsId, ReadTrace, CompletenessIssue, Keys;
    var bare := env - {c.idEnv};
    EmptyCountsAsAbsent(c, env);
    if NamesValid(c) {
      ValidNamesAreSeparate(c);
      KeysByIndex(c);
      forall i | 0 <= i < 17 && i != 1 ensures Get(env, Keys(c)[i]) == Get(bare, Keys(c)[i]) {
        SameKey(c, i, 1);
      }
      OthersDecide(c, env, bare, number);
    }
  }

  lemma EmptyCountsAsAbsent(c: Config, env: Env)
    requires Get(env, c.idEnv) == Some("")
    ensures CompletenessIssue(c, env) == CompletenessIssue(c, env - {c.idEnv})
  {
    hide Keys;
    assert forall name :: Truthy(Get(env, name)) <==> Truthy(Get(env - {c.idEnv}, name));
  }

  /** The readers other than that of the identifier itself see no difference. */
  lemma OthersDecide(c: Config, env: Env, bare: Env, number: Number)
    requires Get(env, c.idEnv) == Some("") && Get(bare, c.idEnv) == None
    requires forall i | 0 <= i < 17 && i != 1 :: Get(env, Keys(c)[i]) == Get(bare, Keys(c)[i])
    ensures Read(c, env, true, number).Ok? <==> Read(c, bare, true, number).Ok?
  {
    hide NamesValid, ValidDescriptor, ValidValue, IsId, ParseTraceparent, ValidTracestate, Lower, Get, Keys;
    KeysByIndex(c);
    var k := Keys(c);
    assert Get(env, k[0]) == Get(bare, k[0]) && Get(env, k[2]) == Get(bare, k[2]) && Get(env, k[3]) == Get(bare, k[3]);
    assert Get(env, k[4]) == Get(bare, k[4]) && Get(env, k[5]) == Get(bare, k[5]) && Get(env, k[6]) == Get(bare, k[6]);
    assert Get(env, k[7]) == Get(bare, k[7]) && Get(env, k[8]) == Get(bare, k[8]) && Get(env, k[9]) == Get(bare, k[9]);
    assert Get(env, k[10]) == Get(bare, k[10]) && Get(env, k[11]) == Get(bare, k[11]);
    assert Get(env, k[12]) == Get(bare, k[12]) && Get(env, k[13]) == Get(bare, k[13]);
    assert Get(env, k[14]) == Get(bare, k[14]) && Get(env, k[15]) == Get(bare, k[15])
        && Get(env, k[16]) == Get(bare, k[16]);
  }

  /** Such an environment, which no parent of ours writes, is found in order whether or not
      completeness is required. */
  lemma EmptyAgentIdentifierIsAccepted(c: Config, o: Options, number: Number)
    requires NamesValid(c) && o.trusted
    ensures Create(c, map[c.idEnv := ""], o, number).Ok? && Create(c, map[c.idEnv := ""], o, number).value.agentId == ""
  {
    hide NamesValid;
    ValidNamesAreSeparate(c);
    KeysByIndex(c);
    var env: Env := map[c.idEnv := ""];
    var k := Keys(c);
    assert forall i | 0 <= i < 17 :: i != 1 ==> k[i] != k[1];
    assert forall i | 0 <= i < 17 && i != 1 :: Get(env, k[i]) == None;
    assert forall i | 0 <= i < 17 :: !Truthy(Get(env, k[i]));
  }
}
