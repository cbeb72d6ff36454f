/** Agent sessions, their quotas and clock, and the scripts run in them. */
module AgentRuntime {
  import opened Common

  /** Session ids are UUIDs: plain numbers, drawn fresh. */
  type SessionId = nat

  type ScriptId = nat

  datatype Capability =
    | ReadNetwork | WriteNetwork | ReadFiles | WriteFiles | ReadClipboard | WriteClipboard | Render
    | ExecutePageScript | ExecuteAgentScript | UseCredential | SpawnProcess | AccessOtherOrigins | SolveChallenge
    | CredentialSolve

  datatype SessionState = Created | Running | Paused | Cancelled | Exited

  datatype Limits = Limits(maxActions: nat, maxEvents: nat, maxOutputBytes: U64, maxRuntimeMillis: U64)

  /** What a session has used up, as its counters hold it. */
  datatype Usage = Usage(actions: nat, events: nat, bytes: U64)

  /** What calls have cost in all. */
  datatype Totals = Totals(actions: nat, events: nat, bytes: nat)

  datatype Session = Session(
    state: SessionState, capabilities: set<Capability>, limits: Limits, used: Usage, startedAt: Option<nat>)

  datatype Execution = Execution(session: SessionId, sourceBytes: nat, timeoutMillis: nat, provenance: string)

  datatype ScriptRequest = ScriptRequest(source: string, provenance: string, timeoutMillis: nat)

  datatype Error =
    | UnknownSession
    | InvalidState(state: SessionState)
    | CapabilityDenied(capability: Capability)
    | QuotaExceeded(what: string)
    | RuntimeExceeded
    | EmptySource
    | MissingProvenance
    | TimeoutExceeded
    | UnknownExecution

  datatype Runtime = Runtime(policy: set<Capability>, sessions: map<SessionId, Session>, now: nat)

  /** The runtime together with the scripts started in it. */
  datatype World = World(runtime: Runtime, nextId: nat, active: map<ScriptId, Execution>)

  // ----------------------------------------------------------- specification

  function SatSub(a: nat, b: nat): nat {
    if a < b then 0 else a - b
  }

  predicate OutOfTime(s: Session, now: nat) {
    s.startedAt.Some? && SatSub(now, s.startedAt.value) >= s.limits.maxRuntimeMillis
  }

  /** Why a metered call on `id` is turned away before its own checks. */
  function Gate(r: Runtime, id: SessionId): Option<Error> {
    if id !in r.sessions then Some(UnknownSession)
    else if r.sessions[id].state != Running then Some(InvalidState(r.sessions[id].state))
    else if OutOfTime(r.sessions[id], r.now) then Some(RuntimeExceeded)
    else None
  }

  function WithState(r: Runtime, id: SessionId, state: SessionState): Runtime
    requires id in r.sessions
  {
    r.(sessions := r.sessions[id := r.sessions[id].(state := state)])
  }

  /** The gate cancels a session it finds out of time. */
  function Gated(r: Runtime, id: SessionId): Runtime {
    if Gate(r, id) == Some(RuntimeExceeded) then WithState(r, id, Cancelled) else r
  }

  function Plus(total: Totals, cost: Usage): Totals {
    Totals(total.actions + cost.actions, total.events + cost.events, total.bytes + cost.bytes)
  }

  const NO_USE := Usage(0, 0, 0)

  const NOTHING := Totals(0, 0, 0)

  /** The counters after a charge; the byte counter wraps. */
  function Charge(used: Usage, cost: Usage): Usage {
    Usage(used.actions + cost.actions, used.events + cost.events, WrapAdd(used.bytes, cost.bytes))
  }

  function Charged(r: Runtime, id: SessionId, cost: Usage): Runtime
    requires id in r.sessions
  {
    r.(sessions := r.sessions[id := r.sessions[id].(used := Charge(r.sessions[id].used, cost))])
  }

  function IsBlankChar(c: char): bool {
    var code := c as int;
    || 0x9 <= code <= 0xD || code == 0x20 || code == 0x85 || code == 0xA0 || code == 0x1680
    || 0x2000 <= code <= 0x200A || code == 0x2028 || code == 0x2029 || code == 0x202F || code == 0x205F
    || code == 0x3000
  }

  predicate Blank(s: string) {
    forall i | 0 <= i < |s| :: IsBlankChar(s[i])
  }

  /** The length of a text in UTF-8 bytes. */
  function Utf8Length(s: string): (bytes: nat)
    ensures |s| <= bytes <= 4 * |s|
  {
    if s == [] then 0
    else
      var code := s[|s| - 1] as int;
      Utf8Length(s[..|s| - 1]) +
      if code < 0x80 then 1 else if code < 0x800 then 2 else if code < 0x1_0000 then 3 else 4
  }

  datatype Call =
    | Open(id: SessionId, capabilities: set<Capability>, limits: Limits)
    | Start(id: SessionId)
    | Pause(id: SessionId)
    | Cancel(id: SessionId)
    | ConsumeAction(id: SessionId, capability: Capability)
    | RecordEvent(id: SessionId)
    | CapturePageData(id: SessionId, bytes: TextLength)
    | AdvanceTime(elapsed: U64)
    | StartScript(id: SessionId, request: ScriptRequest)
    | FinishScript(id: SessionId, script: ScriptId, bytes: TextLength)
    | CancelScript(id: SessionId, script: ScriptId)

  /** Calls that are metered and must pass the gate. */
  predicate Metered(call: Call) {
    call.ConsumeAction? || call.RecordEvent? || call.CapturePageData? || call.StartScript? || call.FinishScript?
  }

  function Cost(call: Call): Usage {
    match call
    case ConsumeAction(_, _) => Usage(1, 0, 0)
    case StartScript(_, _) => Usage(1, 0, 0)
    case RecordEvent(_) => Usage(0, 1, 0)
    case CapturePageData(_, bytes) => Usage(0, 0, bytes)
    case FinishScript(_, _, bytes) => Usage(0, 0, bytes)
    case _ => NO_USE
  }

  function ActionRefusal(r: Runtime, id: SessionId, capability: Capability): Option<Error>
    requires id in r.sessions
  {
    var s := r.sessions[id];
    if capability !in s.capabilities || capability !in r.policy then Some(CapabilityDenied(capability))
    else if s.used.actions >= s.limits.maxActions then Some(QuotaExceeded("actions"))
    else None
  }

  function OutputRefusal(s: Session, bytes: nat): Option<Error> {
    if SatAdd(s.used.bytes, bytes) > s.limits.maxOutputBytes then Some(QuotaExceeded("output bytes")) else None
  }

  /** Checks of a script request that come before the session is touched. */
  function RequestRefusal(r: Runtime, id: SessionId, request: ScriptRequest): Option<Error> {
    if Blank(request.source) then Some(EmptySource)
    else if Blank(request.provenance) then Some(MissingProvenance)
    else if id !in r.sessions then Some(UnknownSession)
    else if request.timeoutMillis == 0 || request.timeoutMillis > r.sessions[id].limits.maxRuntimeMillis
      then Some(TimeoutExceeded)
    else None
  }

  /** The error a call meets, if any. */
  function Refusal(w: World, call: Call): Option<Error> {
    var r := w.runtime;
    match call
    case Open(_, _, _) => None
    case AdvanceTime(_) => None
    case Start(id) =>
      if id !in r.sessions then Some(UnknownSession)
      else if r.sessions[id].state.Created? || r.sessions[id].state.Paused? then None
      else Some(InvalidState(r.sessions[id].state))
    case Pause(id) =>
      if id !in r.sessions then Some(UnknownSession)
      else if r.sessions[id].state.Running? then None
      else Some(InvalidState(r.sessions[id].state))
    case Cancel(id) =>
      if id !in r.sessions then Some(UnknownSession)
      else if r.sessions[id].state.Cancelled? || r.sessions[id].state.Exited?
        then Some(InvalidState(r.sessions[id].state))
      else None
    case ConsumeAction(id, capability) =>
      if Gate(r, id).Some? then Gate(r, id) else ActionRefusal(r, id, capability)
    case RecordEvent(id) =>
      if Gate(r, id).Some? then Gate(r, id)
      else if r.sessions[id].used.events >= r.sessions[id].limits.maxEvents then Some(QuotaExceeded("events"))
      else None
    case CapturePageData(id, bytes) =>
      if Gate(r, id).Some? then Gate(r, id) else OutputRefusal(r.sessions[id], bytes)
    case StartScript(id, request) =>
      if RequestRefusal(r, id, request).Some? then RequestRefusal(r, id, request)
      else if Gate(r, id).Some? then Gate(r, id)
      else ActionRefusal(r, id, ExecuteAgentScript)
    case FinishScript(id, script, bytes) =>
      if Gate(r, id).Some? then Gate(r, id)
      else if script !in w.active || w.active[script].session != id then Some(UnknownExecution)
      else OutputRefusal(r.sessions[id], bytes)
    case CancelScript(id, script) =>
      if script in w.active && w.active[script].session == id then None else Some(UnknownExecution)
  }

  /** A call whose gate is reached; a blank or overlong script request is not. */
  predicate ReachesGate(w: World, call: Call) {
    Metered(call) && (call.StartScript? ==> RequestRefusal(w.runtime, call.id, call.request).None?)
  }

  function Accepted(w: World, call: Call): bool {
    Refusal(w, call).None?
  }

  function AfterTime(r: Runtime, elapsed: nat): Runtime {
    var now := SatAdd(r.now, elapsed);
    Runtime(r.policy,
            map id | id in r.sessions ::
              if r.sessions[id].state.Running? && OutOfTime(r.sessions[id], now)
              then r.sessions[id].(state := Cancelled) else r.sessions[id],
            now)
  }

  function After(w: World, call: Call): World {
    if !Accepted(w, call) then
      if ReachesGate(w, call) then w.(runtime := Gated(w.runtime, call.id)) else w
    else
      var r := w.runtime;
      match call
      case Open(id, capabilities, limits) =>
        w.(runtime := r.(sessions := r.sessions[id := Session(Created, capabilities, limits, NO_USE, None)]))
      case AdvanceTime(elapsed) => w.(runtime := AfterTime(r, elapsed))
      case Start(id) =>
        var s := r.sessions[id];
        var started := if s.startedAt.None? then Some(r.now) else s.startedAt;
        w.(runtime := r.(sessions := r.sessions[id := s.(state := Running, startedAt := started)]))
      case Pause(id) => w.(runtime := WithState(r, id, Paused))
      case Cancel(id) => w.(runtime := WithState(r, id, Cancelled))
      case StartScript(id, request) =>
        var script := SatAdd(w.nextId, 1);
        var execution := Execution(id, Utf8Length(request.source), request.timeoutMillis, request.provenance);
        World(Charged(r, id, Cost(call)), script, w.active[script := execution])
      case FinishScript(id, script, _) => World(Charged(r, id, Cost(call)), w.nextId, w.active - {script})
      case CancelScript(_, script) => w.(active := w.active - {script})
      case _ => w.(runtime := Charged(r, call.id, Cost(call)))
  }

  // -------------------------------------------------------------------- runs

  function NewWorld(policy: set<Capability>): World {
    World(Runtime(policy, map[], 0), 0, map[])
  }

  ghost function Before(policy: set<Capability>, calls: seq<Call>, n: nat): World
    requires n <= |calls|
  {
    if n == 0 then NewWorld(policy) else After(Before(policy, calls, n - 1), calls[n - 1])
  }

  ghost predicate AcceptedAt(policy: set<Capability>, calls: seq<Call>, i: nat)
    requires i < |calls|
  {
    Accepted(Before(policy, calls, i), calls[i])
  }

  /** Every session id is drawn once. */
  ghost predicate FreshSessions(calls: seq<Call>) {
    forall i, j | 0 <= i < j < |calls| && calls[i].Open? && calls[j].Open? :: calls[i].id != calls[j].id
  }

  /** The cost of the accepted calls on `id` among the first `n`. */
  ghost function Total(policy: set<Capability>, calls: seq<Call>, n: nat, id: SessionId): Totals
    requires n <= |calls|
  {
    if n == 0 then NOTHING
    else
      TotalAfter(Before(policy, calls, n - 1), calls[n - 1], id, Total(policy, calls, n - 1, id))
  }

  function TotalAfter(w: World, call: Call, id: SessionId, total: Totals): Totals {
    if Metered(call) && call.id == id && Accepted(w, call) then Plus(total, Cost(call)) else total
  }

  ghost predicate WithinLimits(s: Session) {
    && s.used.actions <= s.limits.maxActions
    && s.used.events <= s.limits.maxEvents
    && s.used.bytes <= s.limits.maxOutputBytes
  }

  lemma {:induction false} UnopenedIsUnused(policy: set<Capability>, calls: seq<Call>, n: nat, id: SessionId)
    requires n <= |calls| && forall i | 0 <= i < n && calls[i].Open? :: calls[i].id != id
    ensures id !in Before(policy, calls, n).runtime.sessions && Total(policy, calls, n, id) == NOTHING
  {
    if n == 0 {
    } else {
      UnopenedIsUnused(policy, calls, n - 1, id);
      UnknownStaysUnknown(Before(policy, calls, n - 1), calls[n - 1], id);
    }
  }

  lemma UnknownStaysUnknown(w: World, call: Call, id: SessionId)
    requires id !in w.runtime.sessions && !(call.Open? && call.id == id)
    ensures id !in After(w, call).runtime.sessions
    ensures Metered(call) && call.id == id ==> !Accepted(w, call)
  {
  }

  /** How one call changes a known session. */
  lemma SessionStep(w: World, call: Call, id: SessionId)
    requires id in w.runtime.sessions && !(call.Open? && call.id == id)
    ensures id in After(w, call).runtime.sessions
    ensures var s, t := w.runtime.sessions[id], After(w, call).runtime.sessions[id];
            && t.limits == s.limits
            && t.used == if Metered(call) && call.id == id && Accepted(w, call) then Charge(s.used, Cost(call))
                         else s.used
  {
  }

  /** An accepted call fits the limits of its session. */
  lemma ChargeFits(w: World, call: Call)
    requires Metered(call) && Accepted(w, call)
    ensures call.id in w.runtime.sessions
    ensures var s := w.runtime.sessions[call.id];
            && (WithinLimits(s) ==> WithinLimits(s.(used := Charge(s.used, Cost(call)))))
            && (WithinLimits(s) && s.limits.maxOutputBytes < U64_MAX ==>
                  s.used.bytes + Cost(call).bytes < U64_MAX)
  {
  }

  /** What a counter misses after it wrapped `times` times. */
  function Lost(times: nat): nat {
    times * (U64_MAX + 1)
  }

  /** The counter is the total up to whole wraps. */
  ghost predicate Wrapped(used: U64, total: nat) {
    exists times: nat :: total == used + Lost(times)
  }

  lemma WrappedStep(used: U64, total: nat, bytes: U64)
    requires Wrapped(used, total)
    ensures Wrapped(WrapAdd(used, bytes), total + bytes)
  {
    var times: nat :| total == used + Lost(times);
    if used + bytes > U64_MAX {
      assert total + bytes == WrapAdd(used, bytes) + Lost(times + 1);
    } else {
      assert total + bytes == WrapAdd(used, bytes) + Lost(times);
    }
  }

  /** The counters of `s` against the exact totals of its accepted calls: only the
      byte counter may have wrapped, and only under the largest byte limit. */
  ghost predicate Accounts(s: Session, total: Totals) {
    && s.used.actions == total.actions && s.used.events == total.events
    && Wrapped(s.used.bytes, total.bytes)
    && (s.limits.maxOutputBytes < U64_MAX ==> s.used.bytes == total.bytes)
  }

  /** The counters of `id`, if it is open, are right and within its limits. */
  ghost predicate Metering(w: World, id: SessionId, total: Totals) {
    id in w.runtime.sessions ==>
      Accounts(w.runtime.sessions[id], total) && WithinLimits(w.runtime.sessions[id])
  }

  lemma MeterStep(w: World, call: Call, id: SessionId, total: Totals)
    requires !(call.Open? && call.id == id) && Metering(w, id, total)
    ensures Metering(After(w, call), id, TotalAfter(w, call, id, total))
  {
    if id in w.runtime.sessions {
      SessionStep(w, call, id);
      if Metered(call) && call.id == id && Accepted(w, call) {
        ChargeFits(w, call);
      }
      WrappedStep(w.runtime.sessions[id].used.bytes, total.bytes, Cost(call).bytes);
    } else {
      UnknownStaysUnknown(w, call, id);
    }
  }

  lemma MeterOpen(w: World, call: Call, id: SessionId, total: Totals)
    requires call.Open? && call.id == id && total == NOTHING
    ensures Metering(After(w, call), id, TotalAfter(w, call, id, total))
  {
    assert Lost(0) == 0;
  }

  /** What a session has used equals the total cost of its accepted calls, and no
      limit is exceeded. */
  lemma {:induction false} UsageIsAccepted(policy: set<Capability>, calls: seq<Call>, n: nat, id: SessionId)
    requires FreshSessions(calls) && n <= |calls|
    ensures Metering(Before(policy, calls, n), id, Total(policy, calls, n, id))
  {
    if n == 0 {
    } else if calls[n - 1].Open? && calls[n - 1].id == id {
      UnopenedIsUnused(policy, calls, n - 1, id);
      MeterOpen(Before(policy, calls, n - 1), calls[n - 1], id, Total(policy, calls, n - 1, id));
    } else {
      UsageIsAccepted(policy, calls, n - 1, id);
      MeterStep(Before(policy, calls, n - 1), calls[n - 1], id, Total(policy, calls, n - 1, id));
    }
  }

  /** On the session's run so far the byte counter is exact and bounds the output
      by the limit. */
  ghost predicate ExactBytesOn(policy: set<Capability>, calls: seq<Call>, n: nat, id: SessionId)
    requires n <= |calls| && id in Before(policy, calls, n).runtime.sessions
  {
    var s := Before(policy, calls, n).runtime.sessions[id];
    s.used.bytes == Total(policy, calls, n, id).bytes <= s.limits.maxOutputBytes
  }

  /** Every run keeps the byte counter of every session with this limit exact and
      bounded. */
  ghost predicate ExactBytes(limit: U64) {
    forall policy: set<Capability>, calls: seq<Call>, n: nat, id: SessionId
      {:trigger ExactBytesOn(policy, calls, n, id)} |
      && n <= |calls| && FreshSessions(calls)
      && id in Before(policy, calls, n).runtime.sessions
      && Before(policy, calls, n).runtime.sessions[id].limits.maxOutputBytes == limit ::
        ExactBytesOn(policy, calls, n, id)
  }

  /** A world with one session under the largest byte limit. */
  function Unlimited(policy: set<Capability>, id: SessionId, state: SessionState, bytes: U64, startedAt: Option<nat>)
    : World
  {
    var session := Session(state, {}, Limits(0, 0, U64_MAX, 1), Usage(0, 0, bytes), startedAt);
    World(Runtime(policy, map[id := session], 0), 0, map[])
  }

  lemma OpenUnlimited(policy: set<Capability>, id: SessionId)
    ensures After(NewWorld(policy), Open(id, {}, Limits(0, 0, U64_MAX, 1))) == Unlimited(policy, id, Created, 0, None)
    ensures After(Unlimited(policy, id, Created, 0, None), Start(id)) == Unlimited(policy, id, Running, 0, Some(0))
    ensures Accepted(Unlimited(policy, id, Created, 0, None), Start(id))
  {
  }

  /** Under the largest limit every capture is accepted, whatever was counted. */
  lemma UnlimitedCapture(policy: set<Capability>, id: SessionId, bytes: U64, more: TextLength)
    ensures var w := Unlimited(policy, id, Running, bytes, Some(0));
            && Accepted(w, CapturePageData(id, more))
            && After(w, CapturePageData(id, more)) == Unlimited(policy, id, Running, WrapAdd(bytes, more), Some(0))
  {
  }

  /** Two texts of the greatest length and two more bytes. */
  ghost predicate FullCapture(calls: seq<Call>, id: SessionId) {
    && |calls| == 5
    && calls[0] == Open(id, {}, Limits(0, 0, U64_MAX, 1)) && calls[1] == Start(id)
    && calls[2] == CapturePageData(id, TEXT_MAX) && calls[3] == CapturePageData(id, TEXT_MAX)
    && calls[4] == CapturePageData(id, 2)
  }

  lemma FullCaptureFresh(id: SessionId) returns (calls: seq<Call>)
    ensures FullCapture(calls, id) && FreshSessions(calls)
  {
    calls := [Open(id, {}, Limits(0, 0, U64_MAX, 1)), Start(id),
              CapturePageData(id, TEXT_MAX), CapturePageData(id, TEXT_MAX), CapturePageData(id, 2)];
  }

  lemma StartedUnlimited(policy: set<Capability>, id: SessionId, calls: seq<Call>, n: nat)
    requires |calls| >= 2 && calls[0] == Open(id, {}, Limits(0, 0, U64_MAX, 1)) && calls[1] == Start(id) && n == 1
    ensures Before(policy, calls, n + 1) == Unlimited(policy, id, Running, 0, Some(0))
    ensures Total(policy, calls, n + 1, id).bytes == 0
  {
    OpenUnlimited(policy, id);
    assert Before(policy, calls, n - 1) == NewWorld(policy);
    assert Before(policy, calls, n) == Unlimited(policy, id, Created, 0, None);
    assert Total(policy, calls, n, id) == NOTHING;
  }

  lemma CaptureNext(policy: set<Capability>, id: SessionId, calls: seq<Call>, n: nat, bytes: U64, more: TextLength)
    requires n < |calls| && calls[n] == CapturePageData(id, more)
    requires Before(policy, calls, n) == Unlimited(policy, id, Running, bytes, Some(0))
    ensures AcceptedAt(policy, calls, n)
    ensures Before(policy, calls, n + 1) == Unlimited(policy, id, Running, WrapAdd(bytes, more), Some(0))
    ensures Total(policy, calls, n + 1, id).bytes == Total(policy, calls, n, id).bytes + more
  {
    UnlimitedCapture(policy, id, bytes, more);
  }

  /** All three captures are accepted, and the counter is back at zero although
      more than the limit came out. */
  lemma OverflowIsAccepted(policy: set<Capability>, id: SessionId, calls: seq<Call>)
    requires FullCapture(calls, id)
    ensures AcceptedAt(policy, calls, |calls| - 3)
    ensures AcceptedAt(policy, calls, |calls| - 2) && AcceptedAt(policy, calls, |calls| - 1)
    ensures Before(policy, calls, |calls|) == Unlimited(policy, id, Running, 0, Some(0))
    ensures Total(policy, calls, |calls|, id).bytes == U64_MAX + 1
  {
    var n := |calls| - 3;
    StartedUnlimited(policy, id, calls, n - 1);
    var first, second, third := calls[n].bytes, calls[n + 1].bytes, calls[n + 2].bytes;
    CaptureNext(policy, id, calls, n, 0, first);
    CaptureNext(policy, id, calls, n + 1, first, second);
    CaptureNext(policy, id, calls, n + 2, WrapAdd(first, second), third);
  }

  lemma LargestLimitIsInexact()
    ensures !ExactBytes(U64_MAX)
  {
    var policy, id := {}, 7;
    var calls := FullCaptureFresh(id);
    OverflowIsAccepted(policy, id, calls);
    assert !ExactBytesOn(policy, calls, |calls|, id);
  }

  /** The byte quota is sound exactly for limits below the largest 64-bit value. */
  lemma ExactBytesIff(limit: U64)
    ensures ExactBytes(limit) <==> limit < U64_MAX
  {
    if limit < U64_MAX {
      forall policy: set<Capability>, calls: seq<Call>, n: nat, id: SessionId |
        && n <= |calls| && FreshSessions(calls)
        && id in Before(policy, calls, n).runtime.sessions
        && Before(policy, calls, n).runtime.sessions[id].limits.maxOutputBytes == limit
        ensures ExactBytesOn(policy, calls, n, id)
      {
        UsageIsAccepted(policy, calls, n, id);
      }
    } else {
      LargestLimitIsInexact();
    }
  }

  /** Call `k` is the first start of `id` among the first `n` calls. */
  ghost predicate FirstStart(policy: set<Capability>, calls: seq<Call>, n: nat, id: SessionId, k: nat)
    requires n <= |calls|
  {
    && k < n && calls[k] == Start(id) && AcceptedAt(policy, calls, k)
    && forall i | 0 <= i < k && calls[i] == Start(id) :: !AcceptedAt(policy, calls, i)
  }

  ghost predicate StartedBy(policy: set<Capability>, calls: seq<Call>, n: nat, id: SessionId, k: nat, time: nat)
    requires n <= |calls|
  {
    FirstStart(policy, calls, n, id, k) && time == Before(policy, calls, k).runtime.now
  }

  /** The recorded start is the clock at the first start, and pausing and resuming
      do not move it. */
  lemma {:induction false} StartedAtFirstStart(policy: set<Capability>, calls: seq<Call>, n: nat, id: SessionId)
    requires FreshSessions(calls) && n <= |calls| && id in Before(policy, calls, n).runtime.sessions
    ensures var s := Before(policy, calls, n).runtime.sessions[id];
            && (s.state.Running? || s.state.Paused? ==> s.startedAt.Some?)
            && (s.startedAt.None? ==> forall i | 0 <= i < n && calls[i] == Start(id) :: !AcceptedAt(policy, calls, i))
            && (s.startedAt.Some? ==> exists k: nat :: StartedBy(policy, calls, n, id, k, s.startedAt.value))
  {
    var w, call := Before(policy, calls, n - 1), calls[n - 1];
    if call.Open? && call.id == id {
      UnopenedNeverStarts(policy, calls, n - 1, id);
    } else {
      if id !in w.runtime.sessions {
        UnknownStaysUnknown(w, call, id);
      }
      StartedAtFirstStart(policy, calls, n - 1, id);
      StartStep(w, call, id);
      var s := w.runtime.sessions[id];
      if s.startedAt.Some? {
        var k: nat :| StartedBy(policy, calls, n - 1, id, k, s.startedAt.value);
        assert StartedBy(policy, calls, n, id, k, s.startedAt.value);
      } else if call == Start(id) && AcceptedAt(policy, calls, n - 1) {
        assert StartedBy(policy, calls, n, id, n - 1, w.runtime.now);
      }
    }
  }

  /** How one call changes a known session's start time and state. */
  lemma StartStep(w: World, call: Call, id: SessionId)
    requires id in w.runtime.sessions && !(call.Open? && call.id == id)
    ensures id in After(w, call).runtime.sessions
    ensures var s, t := w.runtime.sessions[id], After(w, call).runtime.sessions[id];
            && t.startedAt == (if call == Start(id) && Accepted(w, call) && s.startedAt.None? then Some(w.runtime.now)
                               else s.startedAt)
            && (t.state.Running? || t.state.Paused? ==>
                  s.state.Running? || s.state.Paused? || (call == Start(id) && Accepted(w, call)))
            && (s.state.Cancelled? ==> t.state.Cancelled?)
  {
  }

  lemma {:induction false} UnopenedNeverStarts(policy: set<Capability>, calls: seq<Call>, n: nat, id: SessionId)
    requires n <= |calls| && forall i | 0 <= i < n && calls[i].Open? :: calls[i].id != id
    ensures forall i | 0 <= i < n && calls[i] == Start(id) :: !AcceptedAt(policy, calls, i)
  {
    forall i | 0 <= i < n && calls[i] == Start(id)
      ensures !AcceptedAt(policy, calls, i)
    {
      UnopenedIsUnused(policy, calls, i, id);
    }
  }

  /** The time that passes from call `from` up to call `to`. */
  ghost function Elapsed(calls: seq<Call>, from: nat, to: nat): nat
    requires from <= to <= |calls|
  {
    if from == to then 0
    else Elapsed(calls, from, to - 1) + if calls[to - 1].AdvanceTime? then calls[to - 1].elapsed else 0
  }

  lemma ClockStep(w: World, call: Call)
    ensures After(w, call).runtime.now ==
            if call.AdvanceTime? then SatAdd(w.runtime.now, call.elapsed) else w.runtime.now
  {
  }

  lemma {:induction false} ClockBounded(policy: set<Capability>, calls: seq<Call>, n: nat)
    requires n <= |calls|
    ensures Before(policy, calls, n).runtime.now <= U64_MAX
  {
    if n == 0 {
    } else {
      ClockBounded(policy, calls, n - 1);
      ClockStep(Before(policy, calls, n - 1), calls[n - 1]);
    }
  }

  /** The clock shows the elapsed time until it saturates. */
  lemma {:induction false} ClockShowsElapsed(policy: set<Capability>, calls: seq<Call>, k: nat, n: nat)
    requires k <= n <= |calls|
    ensures Before(policy, calls, n).runtime.now ==
            SatAdd(Before(policy, calls, k).runtime.now, Elapsed(calls, k, n))
    decreases n
  {
    if k == n {
      ClockBounded(policy, calls, k);
    } else {
      ClockShowsElapsed(policy, calls, k, n - 1);
      ClockStep(Before(policy, calls, n - 1), calls[n - 1]);
    }
  }

  lemma FirstStartUnique(policy: set<Capability>, calls: seq<Call>, n: nat, id: SessionId, j: nat, k: nat)
    requires n <= |calls| && FirstStart(policy, calls, n, id, j) && FirstStart(policy, calls, n, id, k)
    ensures j == k
  {
  }

  /** An accepted metered call finds its session started before, within the limit
      by the clock. */
  lemma AcceptedByClock(policy: set<Capability>, calls: seq<Call>, i: nat) returns (k: nat, time: nat)
    requires FreshSessions(calls) && i < |calls| && Metered(calls[i]) && AcceptedAt(policy, calls, i)
    ensures var r := Before(policy, calls, i).runtime;
            && calls[i].id in r.sessions
            && StartedBy(policy, calls, i, calls[i].id, k, time)
            && r.now < time + r.sessions[calls[i].id].limits.maxRuntimeMillis
  {
    var r := Before(policy, calls, i).runtime;
    StartedAtFirstStart(policy, calls, i, calls[i].id);
    time := r.sessions[calls[i].id].startedAt.value;
    k :| StartedBy(policy, calls, i, calls[i].id, k, time);
  }

  /** No metered call is accepted once the runtime limit has elapsed since the
      session's first start, unless start and limit reach beyond the clock. */
  lemma NothingAcceptedOutOfTime(policy: set<Capability>, calls: seq<Call>, i: nat)
    requires FreshSessions(calls) && i < |calls| && Metered(calls[i]) && AcceptedAt(policy, calls, i)
    ensures var r := Before(policy, calls, i).runtime;
            exists k: nat, time: nat ::
              && StartedBy(policy, calls, i, calls[i].id, k, time)
              && r.now < time + r.sessions[calls[i].id].limits.maxRuntimeMillis
              && (time + r.sessions[calls[i].id].limits.maxRuntimeMillis <= U64_MAX ==>
                    Elapsed(calls, k, i) < r.sessions[calls[i].id].limits.maxRuntimeMillis)
  {
    var k, time := AcceptedByClock(policy, calls, i);
    ClockShowsElapsed(policy, calls, k, i);
    assert StartedBy(policy, calls, i, calls[i].id, k, time);
  }

  /** Call `i` is metered and accepted on a session with this limit, first started
      by call `k` at this time. */
  ghost predicate MeteredSince(
      policy: set<Capability>, calls: seq<Call>, i: nat, k: nat, time: nat, limit: nat)
  {
    && i < |calls| && FreshSessions(calls) && Metered(calls[i]) && AcceptedAt(policy, calls, i)
    && StartedBy(policy, calls, i, calls[i].id, k, time)
    && calls[i].id in Before(policy, calls, i).runtime.sessions
    && Before(policy, calls, i).runtime.sessions[calls[i].id].limits.maxRuntimeMillis == limit
  }

  /** On every run the limit bounds the time elapsed since a start at `time`. */
  ghost predicate Enforced(time: nat, limit: nat) {
    forall policy: set<Capability>, calls: seq<Call>, i: nat, k: nat |
      MeteredSince(policy, calls, i, k, time, limit) :: Elapsed(calls, k, i) < limit
  }

  /** The runtime limit is enforced exactly when it ends before the clock does. */
  lemma RuntimeLimitIff(time: U64, limit: U64)
    ensures Enforced(time, limit) <==> time + limit <= U64_MAX
  {
    if time + limit <= U64_MAX {
      forall policy: set<Capability>, calls: seq<Call>, i: nat, k: nat |
        MeteredSince(policy, calls, i, k, time, limit)
        ensures Elapsed(calls, k, i) < limit
      {
        var j, start := AcceptedByClock(policy, calls, i);
        FirstStartUnique(policy, calls, i, calls[i].id, j, k);
        ClockShowsElapsed(policy, calls, k, i);
      }
    } else {
      LateCallIsAccepted(time, limit);
    }
  }

  // A session started at `time` that records an event once its limit has elapsed.

  function Clocked(id: SessionId, limit: U64, state: SessionState, now: nat, startedAt: Option<nat>): World {
    World(Runtime({}, map[id := Session(state, {}, Limits(0, 1, 0, limit), NO_USE, startedAt)], now), 0, map[])
  }

  lemma OpenClocked(id: SessionId, limit: U64, time: U64)
    ensures var w := World(Runtime({}, map[], time), 0, map[]);
            && After(NewWorld({}), AdvanceTime(time)) == w
            && After(w, Open(id, {}, Limits(0, 1, 0, limit))) == Clocked(id, limit, Created, time, None)
    ensures var w := Clocked(id, limit, Created, time, None);
            Accepted(w, Start(id)) && After(w, Start(id)) == Clocked(id, limit, Running, time, Some(time))
  {
  }

  /** Beyond the end of the clock no time is too late. */
  lemma ClockedStaysOpen(id: SessionId, limit: U64, time: U64, elapsed: U64)
    requires time + limit > U64_MAX
    ensures var w := After(Clocked(id, limit, Running, time, Some(time)), AdvanceTime(elapsed));
            w == Clocked(id, limit, Running, SatAdd(time, elapsed), Some(time)) && Accepted(w, RecordEvent(id))
  {
    var w := Clocked(id, limit, Running, time, Some(time));
    assert !OutOfTime(w.runtime.sessions[id], SatAdd(time, elapsed));
    assert AfterTime(w.runtime, elapsed).sessions == w.runtime.sessions;
  }

  ghost predicate LateEvent(calls: seq<Call>, id: SessionId, time: U64, limit: U64) {
    && |calls| == 5
    && calls[0] == AdvanceTime(time) && calls[1] == Open(id, {}, Limits(0, 1, 0, limit)) && calls[2] == Start(id)
    && calls[3] == AdvanceTime(limit) && calls[4] == RecordEvent(id)
  }

  lemma LateEventFresh(id: SessionId, time: U64, limit: U64) returns (calls: seq<Call>)
    ensures LateEvent(calls, id, time, limit) && FreshSessions(calls)
  {
    calls := [AdvanceTime(time), Open(id, {}, Limits(0, 1, 0, limit)), Start(id), AdvanceTime(limit), RecordEvent(id)];
  }

  lemma LateEventWorlds(calls: seq<Call>, id: SessionId, time: U64, limit: U64, k: nat)
    requires LateEvent(calls, id, time, limit) && k == 2
    ensures Before({}, calls, k) == Clocked(id, limit, Created, time, None)
    ensures Before({}, calls, k + 1) == Clocked(id, limit, Running, time, Some(time))
    ensures Before({}, calls, k + 2) == After(Clocked(id, limit, Running, time, Some(time)), AdvanceTime(limit))
  {
    OpenClocked(id, limit, time);
    assert Before({}, calls, k - 2) == NewWorld({});
    assert Before({}, calls, k - 1) == World(Runtime({}, map[], time), 0, map[]);
  }

  /** A session whose start and limit reach beyond the clock records an event after
      its limit has elapsed. */
  lemma LateCallIsAccepted(time: U64, limit: U64)
    requires time + limit > U64_MAX
    ensures !Enforced(time, limit)
  {
    var id, k := 7, 2;
    var calls := LateEventFresh(id, time, limit);
    LateEventWorlds(calls, id, time, limit, k);
    ClockedStaysOpen(id, limit, time, limit);
    OpenClocked(id, limit, time);
    var i := k + 2;
    assert FirstStart({}, calls, i, id, k) by {
      assert calls[k] == Start(id) && AcceptedAt({}, calls, k);
      assert forall j | 0 <= j < k :: calls[j] != Start(id);
    }
    assert MeteredSince({}, calls, i, k, time, limit);
    assert Elapsed(calls, k, k) == 0 && Elapsed(calls, k, k + 1) == 0 && Elapsed(calls, k, i) == limit;
  }

  // ------------------------------------------------------------------- grants

  /** Call `j` opened session `id`. */
  ghost predicate OpenedBy(calls: seq<Call>, n: nat, id: SessionId, j: nat)
    requires n <= |calls|
  {
    j < n && calls[j].Open? && calls[j].id == id
  }

  lemma GrantsStep(w: World, call: Call, id: SessionId)
    requires id in w.runtime.sessions && !(call.Open? && call.id == id)
    ensures id in After(w, call).runtime.sessions
    ensures After(w, call).runtime.sessions[id].capabilities == w.runtime.sessions[id].capabilities
    ensures After(w, call).runtime.sessions[id].limits == w.runtime.sessions[id].limits
  {
  }

  lemma {:induction false} PolicyStays(policy: set<Capability>, calls: seq<Call>, n: nat)
    requires n <= |calls|
    ensures Before(policy, calls, n).runtime.policy == policy
  {
    if n == 0 {
    } else {
      PolicyStays(policy, calls, n - 1);
    }
  }

  /** A session keeps the capabilities and limits it was opened with. */
  lemma {:induction false} OpenDecidesGrants(policy: set<Capability>, calls: seq<Call>, n: nat, id: SessionId)
      returns (j: nat)
    requires FreshSessions(calls) && n <= |calls| && id in Before(policy, calls, n).runtime.sessions
    ensures OpenedBy(calls, n, id, j)
    ensures Before(policy, calls, n).runtime.sessions[id].capabilities == calls[j].capabilities
    ensures Before(policy, calls, n).runtime.sessions[id].limits == calls[j].limits
  {
    var w, call := Before(policy, calls, n - 1), calls[n - 1];
    if call.Open? && call.id == id {
      j := n - 1;
    } else {
      if id !in w.runtime.sessions {
        UnknownStaysUnknown(w, call, id);
      }
      j := OpenDecidesGrants(policy, calls, n - 1, id);
      GrantsStep(w, call, id);
    }
  }

  /** The capability an action needs. */
  predicate Needs(call: Call, capability: Capability) {
    (call.ConsumeAction? && call.capability == capability) || (call.StartScript? && capability == ExecuteAgentScript)
  }

  lemma AcceptedHasGrants(w: World, call: Call, capability: Capability)
    requires Needs(call, capability) && Accepted(w, call)
    ensures call.id in w.runtime.sessions && Ready(w.runtime.sessions, call.id, w.runtime.now)
    ensures capability in w.runtime.policy && capability in w.runtime.sessions[call.id].capabilities
    ensures w.runtime.sessions[call.id].used.actions < w.runtime.sessions[call.id].limits.maxActions
  {
  }

  lemma GrantedIsAccepted(w: World, id: SessionId, capability: Capability)
    requires Ready(w.runtime.sessions, id, w.runtime.now)
    requires capability in w.runtime.policy && capability in w.runtime.sessions[id].capabilities
    requires w.runtime.sessions[id].used.actions < w.runtime.sessions[id].limits.maxActions
    ensures Accepted(w, ConsumeAction(id, capability))
  {
  }

  /** No action is accepted and no script started without both grants: the policy's
      and the one the session was opened with. */
  lemma ActionsNeedBothGrants(policy: set<Capability>, calls: seq<Call>, i: nat, capability: Capability)
    requires FreshSessions(calls) && i < |calls| && Needs(calls[i], capability) && AcceptedAt(policy, calls, i)
    ensures capability in policy
    ensures exists j: nat :: OpenedBy(calls, i, calls[i].id, j) && capability in calls[j].capabilities
  {
    var w := Before(policy, calls, i);
    PolicyStays(policy, calls, i);
    AcceptedHasGrants(w, calls[i], capability);
    var j := OpenDecidesGrants(policy, calls, i, calls[i].id);
  }

  /** An action on an open session is accepted exactly when the session runs in
      time, both grants are there and its accepted actions leave one free. */
  lemma ActionAcceptedIff(policy: set<Capability>, calls: seq<Call>, i: nat, j: nat)
    requires FreshSessions(calls) && i < |calls| && calls[i].ConsumeAction? && OpenedBy(calls, i, calls[i].id, j)
    requires calls[i].id in Before(policy, calls, i).runtime.sessions
    ensures var r, id := Before(policy, calls, i).runtime, calls[i].id;
            AcceptedAt(policy, calls, i) <==>
              && Ready(r.sessions, id, r.now)
              && calls[i].capability in policy && calls[i].capability in calls[j].capabilities
              && Total(policy, calls, i, id).actions < calls[j].limits.maxActions
  {
    var w, id := Before(policy, calls, i), calls[i].id;
    PolicyStays(policy, calls, i);
    var k := OpenDecidesGrants(policy, calls, i, id);
    assert k == j;
    UsageIsAccepted(policy, calls, i, id);
    if AcceptedAt(policy, calls, i) {
      AcceptedHasGrants(w, calls[i], calls[i].capability);
    } else if Ready(w.runtime.sessions, id, w.runtime.now) && calls[i].capability in policy
           && calls[i].capability in calls[j].capabilities
           && w.runtime.sessions[id].used.actions < calls[j].limits.maxActions {
      GrantedIsAccepted(w, id, calls[i].capability);
    }
  }

  /** A cancelled session stays cancelled and nothing on it is accepted. */
  lemma {:induction false} CancelledIsAbsorbing(
      policy: set<Capability>, calls: seq<Call>, m: nat, n: nat, id: SessionId)
    requires FreshSessions(calls) && m <= n <= |calls|
    requires id in Before(policy, calls, m).runtime.sessions
    requires Before(policy, calls, m).runtime.sessions[id].state.Cancelled?
    ensures id in Before(policy, calls, n).runtime.sessions
    ensures Before(policy, calls, n).runtime.sessions[id].state.Cancelled?
    ensures n < |calls| && Metered(calls[n]) && calls[n].id == id ==> !AcceptedAt(policy, calls, n)
    decreases n
  {
    if m == n {
    } else {
      CancelledIsAbsorbing(policy, calls, m, n - 1, id);
      OpenedEarlier(policy, calls, n - 1, id);
      StartStep(Before(policy, calls, n - 1), calls[n - 1], id);
    }
  }

  lemma OpenedEarlier(policy: set<Capability>, calls: seq<Call>, n: nat, id: SessionId)
    requires FreshSessions(calls) && n < |calls| && id in Before(policy, calls, n).runtime.sessions
    ensures !(calls[n].Open? && calls[n].id == id)
  {
    if calls[n].Open? && calls[n].id == id {
      UnopenedIsUnused(policy, calls, n, id);
    }
  }

  // ----------------------------------------------------------------- scripts

  /** The scripts finished, or cancelled, by the first `n` calls. */
  ghost function FinishedBy(policy: set<Capability>, calls: seq<Call>, n: nat): set<ScriptId>
    requires n <= |calls|
  {
    set i | 0 <= i < n && calls[i].FinishScript? && AcceptedAt(policy, calls, i) :: calls[i].script
  }

  ghost function CancelledBy(policy: set<Capability>, calls: seq<Call>, n: nat): set<ScriptId>
    requires n <= |calls|
  {
    set i | 0 <= i < n && calls[i].CancelScript? && AcceptedAt(policy, calls, i) :: calls[i].script
  }

  /** Every started script is in exactly one of active, finished and cancelled. */
  ghost predicate ScriptsPartitioned(w: World, finished: set<ScriptId>, cancelled: set<ScriptId>) {
    && (forall s :: 1 <= s <= w.nextId <==> s in w.active || s in finished || s in cancelled)
    && w.active.Keys !! finished !! cancelled
  }

  lemma FinishedGrows(policy: set<Capability>, calls: seq<Call>, n: nat)
    requires 0 < n <= |calls|
    ensures FinishedBy(policy, calls, n) == FinishedBy(policy, calls, n - 1) +
            (if calls[n - 1].FinishScript? && AcceptedAt(policy, calls, n - 1) then {calls[n - 1].script} else {})
    ensures CancelledBy(policy, calls, n) == CancelledBy(policy, calls, n - 1) +
            (if calls[n - 1].CancelScript? && AcceptedAt(policy, calls, n - 1) then {calls[n - 1].script} else {})
  {
  }

  /** Call `i` starts a script. */
  ghost predicate StartsAt(policy: set<Capability>, calls: seq<Call>, i: nat)
    requires i < |calls|
  {
    calls[i].StartScript? && AcceptedAt(policy, calls, i)
  }

  /** The number of scripts started by the first `n` calls. */
  ghost function Starts(policy: set<Capability>, calls: seq<Call>, n: nat): nat
    requires n <= |calls|
  {
    if n == 0 then 0 else Starts(policy, calls, n - 1) + if StartsAt(policy, calls, n - 1) then 1 else 0
  }

  /** The id handed out by a call that starts a script. */
  ghost function ScriptIdAt(policy: set<Capability>, calls: seq<Call>, i: nat): nat
    requires i < |calls|
  {
    Before(policy, calls, i + 1).nextId
  }

  lemma NextIdStep(w: World, call: Call)
    ensures After(w, call).nextId ==
            if call.StartScript? && Accepted(w, call) then SatAdd(w.nextId, 1) else w.nextId
  {
  }

  /** The id counter counts the started scripts until it saturates. */
  lemma {:induction false} NextIdCounts(policy: set<Capability>, calls: seq<Call>, n: nat)
    requires n <= |calls|
    ensures Before(policy, calls, n).nextId == Min(Starts(policy, calls, n), U64_MAX)
  {
    if n == 0 {
    } else {
      NextIdCounts(policy, calls, n - 1);
      NextIdStep(Before(policy, calls, n - 1), calls[n - 1]);
    }
  }

  lemma {:induction false} StartsGrow(policy: set<Capability>, calls: seq<Call>, m: nat, n: nat)
    requires m <= n <= |calls|
    ensures Starts(policy, calls, m) <= Starts(policy, calls, n)
    decreases n
  {
    if m == n {
    } else {
      StartsGrow(policy, calls, m, n - 1);
    }
  }

  lemma {:induction false} LastStart(policy: set<Capability>, calls: seq<Call>, n: nat) returns (i: nat)
    requires n <= |calls| && Starts(policy, calls, n) > 0
    ensures i < n && StartsAt(policy, calls, i) && Starts(policy, calls, i + 1) == Starts(policy, calls, n)
  {
    if StartsAt(policy, calls, n - 1) {
      i := n - 1;
    } else {
      i := LastStart(policy, calls, n - 1);
    }
  }

  ghost predicate SameScriptId(policy: set<Capability>, calls: seq<Call>, i: nat, j: nat)
    requires i < |calls| && j < |calls|
  {
    ScriptIdAt(policy, calls, i) == ScriptIdAt(policy, calls, j)
  }

  /** Script ids are handed out once exactly while the counter has room. */
  lemma ScriptIdsDistinctIff(policy: set<Capability>, calls: seq<Call>, n: nat)
    requires n <= |calls|
    ensures (forall i, j | 0 <= i < j < n && StartsAt(policy, calls, i) && StartsAt(policy, calls, j) ::
               !SameScriptId(policy, calls, i, j))
            <==> Starts(policy, calls, n) <= U64_MAX
  {
    if Starts(policy, calls, n) <= U64_MAX {
      forall i, j | 0 <= i < j < n && StartsAt(policy, calls, i) && StartsAt(policy, calls, j)
        ensures !SameScriptId(policy, calls, i, j)
      {
        StartsGrow(policy, calls, j + 1, n);
        StartIdsDiffer(policy, calls, i, j);
      }
    } else {
      var i, j := RepeatedId(policy, calls, n);
    }
  }

  lemma StartIdsDiffer(policy: set<Capability>, calls: seq<Call>, i: nat, j: nat)
    requires i < j < |calls| && StartsAt(policy, calls, j) && Starts(policy, calls, j + 1) <= U64_MAX
    ensures !SameScriptId(policy, calls, i, j)
  {
    IdIsCount(policy, calls, i);
    IdIsCount(policy, calls, j);
    StartsGrow(policy, calls, i + 1, j);
  }

  lemma IdIsCount(policy: set<Capability>, calls: seq<Call>, i: nat)
    requires i < |calls|
    ensures ScriptIdAt(policy, calls, i) == Min(Starts(policy, calls, i + 1), U64_MAX)
  {
    NextIdCounts(policy, calls, i + 1);
  }

  /** The last two starts share the saturated id. */
  lemma RepeatedId(policy: set<Capability>, calls: seq<Call>, n: nat) returns (i: nat, j: nat)
    requires n <= |calls| && Starts(policy, calls, n) > U64_MAX
    ensures i < j < n && StartsAt(policy, calls, i) && StartsAt(policy, calls, j)
    ensures SameScriptId(policy, calls, i, j)
  {
    j := LastStart(policy, calls, n);
    i := LastStart(policy, calls, j);
    IdIsCount(policy, calls, i);
    IdIsCount(policy, calls, j);
  }

  /** While ids are handed out once, every started script is in exactly one of
      active, finished and cancelled. */
  lemma {:induction false} ScriptsStayPartitioned(policy: set<Capability>, calls: seq<Call>, n: nat)
    requires n <= |calls| && Starts(policy, calls, n) <= U64_MAX
    ensures ScriptsPartitioned(Before(policy, calls, n), FinishedBy(policy, calls, n), CancelledBy(policy, calls, n))
    ensures Before(policy, calls, n).nextId == Starts(policy, calls, n)
  {
    NextIdCounts(policy, calls, n);
    if n == 0 {
    } else {
      NextIdCounts(policy, calls, n - 1);
      ScriptsStayPartitioned(policy, calls, n - 1);
      FinishedGrows(policy, calls, n);
      ScriptStep(Before(policy, calls, n - 1), calls[n - 1],
                 FinishedBy(policy, calls, n - 1), CancelledBy(policy, calls, n - 1));
    }
  }

  lemma ScriptStep(w: World, call: Call, finished: set<ScriptId>, cancelled: set<ScriptId>)
    requires ScriptsPartitioned(w, finished, cancelled)
    requires call.StartScript? && Accepted(w, call) ==> w.nextId < U64_MAX
    ensures ScriptsPartitioned(
              After(w, call),
              finished + (if call.FinishScript? && Accepted(w, call) then {call.script} else {}),
              cancelled + (if call.CancelScript? && Accepted(w, call) then {call.script} else {}))
  {
    if Accepted(w, call) && (call.FinishScript? || call.CancelScript?) {
      assert call.script in w.active;
    }
  }

  /** A refused finish leaves every script as it was. */
  lemma FailedFinishKeepsScripts(w: World, call: Call)
    requires call.FinishScript? && !Accepted(w, call)
    ensures After(w, call).active == w.active && After(w, call).nextId == w.nextId
  {
  }

  // --------------------------------------------------------- plain conditions

  /** The session runs and its time is over: the limit has passed since its start. */
  predicate Overdue(sessions: map<SessionId, Session>, id: SessionId, now: nat) {
    && id in sessions && sessions[id].state == Running && sessions[id].startedAt.Some?
    && (sessions[id].limits.maxRuntimeMillis == 0
        || sessions[id].startedAt.value + sessions[id].limits.maxRuntimeMillis <= now)
  }

  predicate Ready(sessions: map<SessionId, Session>, id: SessionId, now: nat) {
    id in sessions && sessions[id].state == Running && !Overdue(sessions, id, now)
  }

  /** An overdue session found by a call is cancelled. */
  function Swept(sessions: map<SessionId, Session>, id: SessionId, now: nat): map<SessionId, Session> {
    if Overdue(sessions, id, now) then sessions[id := sessions[id].(state := Cancelled)] else sessions
  }

  /** The bytes fit the limit, or the largest limit lets everything pass. */
  predicate Fits(used: nat, bytes: nat, limit: U64) {
    used + bytes <= limit || limit == U64_MAX
  }

  /** The Unicode white space characters. */
  function WhiteSpace(): seq<int> {
    [0x9, 0xA, 0xB, 0xC, 0xD, 0x20, 0x85, 0xA0, 0x1680, 0x2000, 0x2001, 0x2002, 0x2003, 0x2004, 0x2005, 0x2006,
     0x2007, 0x2008, 0x2009, 0x200A, 0x2028, 0x2029, 0x202F, 0x205F, 0x3000]
  }

  /** Trimming leaves nothing. */
  ghost predicate AllWhite(s: string) {
    forall c | c in s :: c as int in WhiteSpace()
  }

  lemma BlankIsAllWhite(s: string)
    ensures Blank(s) <==> AllWhite(s)
  {
    forall c: char
      ensures IsBlankChar(c) <==> c as int in WhiteSpace()
    {
    }
    if Blank(s) {
      forall c | c in s
        ensures c as int in WhiteSpace()
      {
        var i :| 0 <= i < |s| && s[i] == c;
      }
    }
    if AllWhite(s) {
      forall i | 0 <= i < |s|
        ensures IsBlankChar(s[i])
      {
        assert s[i] in s;
      }
    }
  }

  lemma OverdueIsOutOfTime(r: Runtime, elapsed: U64)
    ensures var t := AfterTime(r, elapsed);
            && t.sessions.Keys == r.sessions.Keys
            && forall id | id in r.sessions ::
                 t.sessions[id] == if Overdue(r.sessions, id, t.now) then r.sessions[id].(state := Cancelled)
                                   else r.sessions[id]
  {
  }

  /** The length of a text in bytes is the sum over its characters. */
  lemma {:induction false} Utf8Joins(a: string, b: string)
    ensures Utf8Length(a + b) == Utf8Length(a) + Utf8Length(b)
  {
    if b == [] {
      assert a + b == a;
    } else {
      assert (a + b)[..|a + b| - 1] == a + b[..|b| - 1];
      Utf8Joins(a, b[..|b| - 1]);
    }
  }

  lemma Utf8OfOne(c: char)
    ensures var code := c as int;
            && (Utf8Length([c]) == 1 <==> code <= 0x7F)
            && (Utf8Length([c]) == 2 <==> 0x80 <= code <= 0x7FF)
            && (Utf8Length([c]) == 3 <==> 0x800 <= code <= 0xFFFF)
            && (Utf8Length([c]) == 4 <==> 0x1_0000 <= code)
  {
    assert [c][..0] == [];
    assert Utf8Length([]) == 0;
  }

  // ---------------------------------------------------------- implementation

  class SessionRuntime {
    const policy: set<Capability>
    var sessions: map<SessionId, Session>
    var now: nat

    ghost function View(): Runtime
      reads this
    {
      Runtime(policy, sessions, now)
    }

    /** The world of this runtime alone, for calls that touch no script. */
    ghost function Alone(): World
      reads this
    {
      World(View(), 0, map[])
    }

    constructor (policy: set<Capability>)
      ensures View() == NewWorld(policy).runtime
    {
      this.policy, sessions, now := policy, map[], 0;
    }

    method OpenSession(id: SessionId, capabilities: set<Capability>, limits: Limits)
      requires id !in sessions
      modifies this
      ensures Alone() == After(old(Alone()), Open(id, capabilities, limits))
      ensures sessions == old(sessions)[id := Session(Created, capabilities, limits, Usage(0, 0, 0), None)]
      ensures now == old(now)
    {
      sessions := sessions[id := Session(Created, capabilities, limits, Usage(0, 0, 0), None)];
    }

    method StartSession(id: SessionId) returns (error: Option<Error>)
      modifies this
      ensures error == Refusal(old(Alone()), Start(id)) && Alone() == After(old(Alone()), Start(id))
      ensures error.None? <==> id in old(sessions) && old(sessions)[id].state in {Created, Paused}
      ensures now == old(now) && (error.Some? ==> sessions == old(sessions))
      ensures error.None? ==>
                var s := old(sessions)[id];
                sessions == old(sessions)[id := s.(
                              state := Running, startedAt := if s.startedAt.Some? then s.startedAt else Some(now))]
    {
      if id !in sessions {
        return Some(UnknownSession);
      }
      var s := sessions[id];
      if !s.state.Created? && !s.state.Paused? {
        return Some(InvalidState(s.state));
      }
      s := s.(state := Running);
      if s.startedAt.None? {
        s := s.(startedAt := Some(now));
      }
      sessions := sessions[id := s];
      error := None;
    }

    method PauseSession(id: SessionId) returns (error: Option<Error>)
      modifies this
      ensures error == Refusal(old(Alone()), Pause(id)) && Alone() == After(old(Alone()), Pause(id))
      ensures error.None? <==> id in old(sessions) && old(sessions)[id].state == Running
      ensures now == old(now) && (error.Some? ==> sessions == old(sessions))
      ensures error.None? ==> sessions == old(sessions)[id := old(sessions)[id].(state := Paused)]
    {
      if id !in sessions {
        return Some(UnknownSession);
      }
      if !sessions[id].state.Running? {
        return Some(InvalidState(sessions[id].state));
      }
      sessions := sessions[id := sessions[id].(state := Paused)];
      error := None;
    }

    method CancelSession(id: SessionId) returns (error: Option<Error>)
      modifies this
      ensures error == Refusal(old(Alone()), Cancel(id)) && Alone() == After(old(Alone()), Cancel(id))
      ensures error.None? <==> id in old(sessions) && old(sessions)[id].state !in {Cancelled, Exited}
      ensures now == old(now) && (error.Some? ==> sessions == old(sessions))
      ensures error.None? ==> sessions == old(sessions)[id := old(sessions)[id].(state := Cancelled)]
    {
      if id !in sessions {
        return Some(UnknownSession);
      }
      if sessions[id].state.Cancelled? || sessions[id].state.Exited? {
        return Some(InvalidState(sessions[id].state));
      }
      sessions := sessions[id := sessions[id].(state := Cancelled)];
      error := None;
    }

    method RequireRunning(id: SessionId) returns (error: Option<Error>)
      modifies this`sessions
      ensures error == Gate(old(View()), id) && View() == Gated(old(View()), id)
      ensures error.None? <==> Ready(old(sessions), id, now)
      ensures id !in old(sessions) ==> error == Some(UnknownSession)
      ensures id in old(sessions) && old(sessions)[id].state != Running ==>
                error == Some(InvalidState(old(sessions)[id].state))
      ensures Overdue(old(sessions), id, now) ==> error == Some(RuntimeExceeded)
      ensures sessions == Swept(old(sessions), id, now)
    {
      if id !in sessions {
        return Some(UnknownSession);
      }
      var s := sessions[id];
      if !s.state.Running? {
        return Some(InvalidState(s.state));
      }
      if s.startedAt.Some? && SatSub(now, s.startedAt.value) >= s.limits.maxRuntimeMillis {
        sessions := sessions[id := s.(state := Cancelled)];
        return Some(RuntimeExceeded);
      }
      error := None;
    }

    method ConsumeOne(id: SessionId, capability: Capability) returns (error: Option<Error>)
      modifies this`sessions
      ensures error == Refusal(old(Alone()), ConsumeAction(id, capability))
      ensures Alone() == After(old(Alone()), ConsumeAction(id, capability))
      ensures error.None? <==>
                && Ready(old(sessions), id, now) && capability in policy
                && capability in old(sessions)[id].capabilities
                && old(sessions)[id].used.actions < old(sessions)[id].limits.maxActions
      ensures Ready(old(sessions), id, now) && error.Some? ==>
                error.value == if capability in policy && capability in old(sessions)[id].capabilities
                               then QuotaExceeded("actions") else CapabilityDenied(capability)
      ensures error.None? ==>
                var s := old(sessions)[id];
                sessions == old(sessions)[id := s.(used := s.used.(actions := s.used.actions + 1))]
      ensures error.Some? ==> sessions == Swept(old(sessions), id, now)
    {
      error := RequireRunning(id);
      if error.Some? {
        return;
      }
      var s := sessions[id];
      if capability !in s.capabilities || capability !in policy {
        return Some(CapabilityDenied(capability));
      }
      if s.used.actions >= s.limits.maxActions {
        return Some(QuotaExceeded("actions"));
      }
      sessions := sessions[id := s.(used := s.used.(actions := s.used.actions + 1))];
    }

    method Record(id: SessionId) returns (error: Option<Error>)
      modifies this`sessions
      ensures error == Refusal(old(Alone()), RecordEvent(id)) && Alone() == After(old(Alone()), RecordEvent(id))
      ensures error.None? <==>
                && Ready(old(sessions), id, now)
                && old(sessions)[id].used.events < old(sessions)[id].limits.maxEvents
      ensures Ready(old(sessions), id, now) && error.Some? ==> error.value == QuotaExceeded("events")
      ensures error.None? ==>
                var s := old(sessions)[id];
                sessions == old(sessions)[id := s.(used := s.used.(events := s.used.events + 1))]
      ensures error.Some? ==> sessions == Swept(old(sessions), id, now)
    {
      error := RequireRunning(id);
      if error.Some? {
        return;
      }
      var s := sessions[id];
      if s.used.events >= s.limits.maxEvents {
        return Some(QuotaExceeded("events"));
      }
      sessions := sessions[id := s.(used := s.used.(events := s.used.events + 1))];
    }

    method Capture(id: SessionId, bytes: TextLength) returns (error: Option<Error>)
      modifies this`sessions
      ensures error == Refusal(old(Alone()), CapturePageData(id, bytes))
      ensures Alone() == After(old(Alone()), CapturePageData(id, bytes))
      ensures error.None? <==>
                && Ready(old(sessions), id, now)
                && Fits(old(sessions)[id].used.bytes, bytes, old(sessions)[id].limits.maxOutputBytes)
      ensures Ready(old(sessions), id, now) && error.Some? ==> error.value == QuotaExceeded("output bytes")
      ensures error.None? ==>
                var s := old(sessions)[id];
                sessions == old(sessions)[id := s.(used := s.used.(bytes := WrapAdd(s.used.bytes, bytes)))]
      ensures error.Some? ==> sessions == Swept(old(sessions), id, now)
    {
      error := RequireRunning(id);
      if error.Some? {
        return;
      }
      var s := sessions[id];
      if SatAdd(s.used.bytes, bytes) > s.limits.maxOutputBytes {
        return Some(QuotaExceeded("output bytes"));
      }
      sessions := sessions[id := s.(used := s.used.(bytes := WrapAdd(s.used.bytes, bytes)))];
    }

    method Advance(elapsed: U64)
      modifies this
      ensures Alone() == After(old(Alone()), AdvanceTime(elapsed))
      ensures now == if old(now) + elapsed > U64_MAX then U64_MAX else old(now) + elapsed
      ensures sessions.Keys == old(sessions).Keys
      ensures forall id | id in sessions ::
                sessions[id] == if Overdue(old(sessions), id, now) then old(sessions)[id].(state := Cancelled)
                                else old(sessions)[id]
    {
      now := SatAdd(now, elapsed);
      var expired := set id | id in sessions && sessions[id].state.Running? && OutOfTime(sessions[id], now);
      ghost var target := AfterTime(old(View()), elapsed).sessions;
      while expired != {}
        invariant now == SatAdd(old(now), elapsed) && expired <= sessions.Keys == old(sessions).Keys
        invariant forall id | id in sessions ::
                    if id in expired
                    then sessions[id] == old(sessions)[id] && target[id] == sessions[id].(state := Cancelled)
                    else sessions[id] == target[id]
      {
        var id :| id in expired;
        sessions := sessions[id := sessions[id].(state := Cancelled)];
        expired := expired - {id};
      }
      assert sessions == target;
      OverdueIsOutOfTime(old(View()), elapsed);
    }
  }

  class ScriptRuntime {
    var nextId: nat
    var active: map<ScriptId, Execution>

    ghost function View(runtime: SessionRuntime): World
      reads this, runtime
    {
      World(runtime.View(), nextId, active)
    }

    constructor ()
      ensures nextId == 0 && active == map[]
    {
      nextId, active := 0, map[];
    }

    method BeginScript(runtime: SessionRuntime, id: SessionId, request: ScriptRequest)
      returns (r: Result<ScriptId, Error>)
      modifies this, runtime`sessions
      ensures View(runtime) == After(old(View(runtime)), StartScript(id, request))
      ensures r == match Refusal(old(View(runtime)), StartScript(id, request))
                   case Some(error) => Err(error)
                   case None => Ok(nextId)
      ensures r.Ok? <==>
                && !AllWhite(request.source) && !AllWhite(request.provenance)
                && Ready(old(runtime.sessions), id, runtime.now)
                && 0 < request.timeoutMillis <= old(runtime.sessions)[id].limits.maxRuntimeMillis
                && ExecuteAgentScript in runtime.policy
                && ExecuteAgentScript in old(runtime.sessions)[id].capabilities
                && old(runtime.sessions)[id].used.actions < old(runtime.sessions)[id].limits.maxActions
      ensures AllWhite(request.source) ==> r == Err(EmptySource)
      ensures !AllWhite(request.source) && AllWhite(request.provenance) ==> r == Err(MissingProvenance)
      ensures r.Ok? ==>
                && nextId == (if old(nextId) >= U64_MAX then U64_MAX else old(nextId) + 1)
                && active == old(active)[nextId := Execution(id, Utf8Length(request.source), request.timeoutMillis,
                                                             request.provenance)]
                && var s := old(runtime.sessions)[id];
                   runtime.sessions == old(runtime.sessions)[id := s.(used := s.used.(actions := s.used.actions + 1))]
      ensures r.Err? ==> nextId == old(nextId) && active == old(active)
    {
      BlankIsAllWhite(request.source);
      BlankIsAllWhite(request.provenance);
      if Blank(request.source) {
        return Err(EmptySource);
      }
      if Blank(request.provenance) {
        return Err(MissingProvenance);
      }
      if id !in runtime.sessions {
        return Err(UnknownSession);
      }
      var maxRuntime := runtime.sessions[id].limits.maxRuntimeMillis;
      if request.timeoutMillis == 0 || request.timeoutMillis > maxRuntime {
        return Err(TimeoutExceeded);
      }
      var error := runtime.ConsumeOne(id, ExecuteAgentScript);
      if error.Some? {
        return Err(error.value);
      }
      nextId := SatAdd(nextId, 1);
      active := active[nextId := Execution(id, Utf8Length(request.source), request.timeoutMillis, request.provenance)];
      r := Ok(nextId);
    }

    method EndScript(runtime: SessionRuntime, id: SessionId, script: ScriptId, bytes: TextLength)
      returns (error: Option<Error>)
      modifies this, runtime`sessions
      ensures error == Refusal(old(View(runtime)), FinishScript(id, script, bytes))
      ensures View(runtime) == After(old(View(runtime)), FinishScript(id, script, bytes))
      ensures error.None? <==>
                && Ready(old(runtime.sessions), id, runtime.now)
                && script in old(active) && old(active)[script].session == id
                && Fits(old(runtime.sessions)[id].used.bytes, bytes,
                        old(runtime.sessions)[id].limits.maxOutputBytes)
      ensures error.None? ==>
                && active == old(active) - {script}
                && var s := old(runtime.sessions)[id];
                   runtime.sessions == old(runtime.sessions)[
                     id := s.(used := s.used.(bytes := WrapAdd(s.used.bytes, bytes)))]
      ensures error.Some? ==> active == old(active) && runtime.sessions == Swept(old(runtime.sessions), id, runtime.now)
      ensures nextId == old(nextId)
    {
      error := runtime.RequireRunning(id);
      if error.Some? {
        return;
      }
      if script !in active {
        return Some(UnknownExecution);
      }
      var execution := active[script];
      active := active - {script};
      if execution.session != id {
        active := active[script := execution];
        return Some(UnknownExecution);
      }
      var s := runtime.sessions[id];
      if SatAdd(s.used.bytes, bytes) > s.limits.maxOutputBytes {
        active := active[script := execution];
        return Some(QuotaExceeded("output bytes"));
      }
      runtime.sessions := runtime.sessions[id := s.(used := s.used.(bytes := WrapAdd(s.used.bytes, bytes)))];
    }

    method DropScript(runtime: SessionRuntime, id: SessionId, script: ScriptId) returns (cancelled: bool)
      modifies this
      ensures cancelled == Accepted(old(View(runtime)), CancelScript(id, script))
      ensures View(runtime) == After(old(View(runtime)), CancelScript(id, script))
      ensures cancelled <==> script in old(active) && old(active)[script].session == id
      ensures active == (if cancelled then old(active) - {script} else old(active)) && nextId == old(nextId)
    {
      cancelled := script in active && active[script].session == id;
      if cancelled {
        active := active - {script};
      }
    }
  }
}
