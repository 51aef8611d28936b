/**
 The reconnecting event-stream client (packages-web/angular/src/event-stream.ts) as a state machine:
 every function below is one of the service's methods, and `Step` is one atomic turn of the event
 loop.  `outputs` records what a turn does to the outside, in order.

 Subscribers of events, ticks and resyncs may call `stop` or `stop(); start()` from inside their
 handler; each turn carries what they do as `Reaction`s.
 */
module EventStream {
  import opened Wrappers
  import opened Machines
  import opened Utf16
  import opened FrameParsing

  datatype Status = Idle | Live | Reconnecting | Polling | Stopped

  datatype RetryMode = Exponential | Fixed

  datatype Reopen = Backoff | Immediate | ImmediateAfterFrame

  datatype Config = Config(
    tenancy: bool,
    json: Text -> bool,
    initialMs: real,
    maxMs: real,
    retryMode: RetryMode,
    failuresBeforePolling: real,
    failureWindowMs: real,
    maxConnectionBytes: real,
    types: Option<seq<Text>>,
    eventPrefix: Text,
    backoffOnPollingEntry: bool,
    commentIsActivity: bool,
    okIsEndOfStream: bool,
    closeDiscardsCursor: bool,
    reopen: Reopen,
    firstLine: bool)

  const DEDUP_WINDOW := 1024

  /** What an error callback carries; the body is decoded, header and body delays are read. */
  datatype Failure =
    | Unauthorized
    | Http(status: int, body: Text, retryAfterSeconds: Option<real>, retryAfterDate: Option<real>, extracted: Option<real>)
    | OtherError

  datatype Outcome = WasStopped | WillRetry | WillPoll

  /** `status` and `body` are null for an error that is not a response; `at` is when it was recorded. */
  datatype LastError = LastError(status: Option<int>, body: Option<Text>, error: Failure, at: real, outcome: Outcome)

  /** The open connection with the variables its callbacks close over. */
  datatype Connection = Connection(parser: Parser, cursorAdvanced: bool, held: Option<Status>)

  datatype Client = Client(
    sessionActive: bool,
    tenantId: Option<Text>,
    status: Status,
    cursor: Option<Text>,
    lastError: Option<LastError>,
    connection: Option<Connection>,
    retryTimer: Option<real>,
    staleTimer: Option<nat>,
    ageTimer: Option<nat>,
    pollingTimer: bool,
    subscribed: bool,
    active: bool,
    generation: nat,
    offset: nat,
    receivedBytes: nat,
    pendingHighSurrogate: Text,
    seen: seq<Text>,
    failures: seq<real>,
    consecutiveFailures: nat,
    currentTenant: Option<Text>)

  datatype Reason = NoContent | TenantChange | ServerClose

  datatype Effect =
    | Connect(lastEventId: Option<Text>)
    | Disconnect
    | Accepted(id: Text)
    | Cleared(held: bool)
    | Resync(reason: Reason)
    | Event(id: Text, event: Text, data: Text)
    | Tick
    | Counted(time: real)
    | FailuresForgotten

  type Turn = Stepped<Client, Effect>

  datatype Reaction = Nothing | CallsStop | CallsRestart

  /** A tenant id counts when it is a non-empty text. */
  predicate Truthy(tenant: Option<Text>) {
    tenant.Some? && tenant.value != []
  }

  /** A callback of generation `generation` belongs to the open connection. */
  predicate Current(s: Client, generation: nat) {
    generation == s.generation && s.active && s.connection.Some?
  }

  function After(outputs: seq<Effect>, turn: Turn): Turn {
    Stepped(turn.state, outputs + turn.outputs)
  }

  // ----- start, stop, open -----

  function CancelConnection(s: Client): Turn {
    Stepped(s.(generation := s.generation + 1, connection := None, staleTimer := None, ageTimer := None),
            if s.connection.Some? then [Disconnect] else [])
  }

  function ClearTimers(s: Client): Client {
    s.(retryTimer := None, pollingTimer := false)
  }

  function Stop(s: Client): Turn {
    var cancelled := CancelConnection(s.(active := false));
    Stepped(ClearTimers(cancelled.state).(subscribed := false, status := Stopped), cancelled.outputs)
  }

  function OpeningStatus(s: Client): Status {
    if s.pollingTimer then Polling else if s.consecutiveFailures > 0 then Reconnecting else Live
  }

  function Connected(c: Config, s: Client): Client {
    var opening := OpeningStatus(s);
    s.(offset := 0, receivedBytes := 0, pendingHighSurrogate := [],
       status := if c.firstLine then s.status else opening,
       staleTimer := Some(s.generation), ageTimer := Some(s.generation),
       connection := Some(Connection(START, false, if c.firstLine then Some(opening) else None)))
  }

  function Open(c: Config, s: Client): Turn {
    if !s.active || !s.sessionActive then Stop(s)
    else if c.tenancy && !Truthy(s.tenantId) then Stepped(s.(status := Idle), [])
    else
      var cancelled := CancelConnection(s);
      Stepped(Connected(c, cancelled.state), cancelled.outputs + [Connect(s.cursor)])
  }

  function Started(c: Config, s: Client): Client {
    s.(active := true, lastError := None, status := if c.firstLine then Idle else s.status,
       currentTenant := if c.tenancy then s.tenantId else None, subscribed := c.tenancy)
  }

  function Start(c: Config, s: Client): Turn {
    if s.active then Stepped(s, [])
    else if !s.sessionActive then Stepped(s.(status := Stopped), [])
    else if c.tenancy && !Truthy(s.tenantId) then Stepped(Started(c, s), [])
    else Open(c, Started(c, s))
  }

  function React(c: Config, s: Client, reaction: Reaction): Turn {
    match reaction
    case Nothing => Stepped(s, [])
    case CallsStop => Stop(s)
    case CallsRestart =>
      var stopped := Stop(s);
      After(stopped.outputs, Start(c, stopped.state))
  }

  /** The client after a tenant change has dropped what belonged to the old tenant. */
  function ResetFor(s: Client, next: Option<Text>): Client {
    ClearTimers(CancelConnection(
      s.(tenantId := next, currentTenant := next, cursor := None, seen := [], failures := [],
         consecutiveFailures := 0, lastError := None)).state)
  }

  function Resetting(s: Client): seq<Effect> {
    [Cleared(s.cursor.Some?), FailuresForgotten] + (if s.connection.Some? then [Disconnect] else [])
  }

  /** The handler of `tenantChanged$`, called after the tenant service has changed its tenant. */
  function ChangeTenant(c: Config, s: Client, next: Option<Text>, reaction: Reaction): Turn {
    if !s.subscribed || next == s.currentTenant then Stepped(s.(tenantId := next), [])
    else After(Resetting(s), Tell(c, ResetFor(s, next), s.cursor.Some?, next, reaction))
  }

  /** Subscribers hear of a discarded cursor first; a handler that stopped or restarted the client ends the turn. */
  function Tell(c: Config, s: Client, hadCursor: bool, next: Option<Text>, reaction: Reaction): Turn {
    var told := Told(c, s, hadCursor, reaction);
    After(told.outputs, if told.state.generation != s.generation then Stepped(told.state, []) else Settle(c, told.state, next))
  }

  function Told(c: Config, s: Client, hadCursor: bool, reaction: Reaction): Turn {
    if hadCursor then After([Resync(TenantChange)], React(c, s, reaction)) else Stepped(s, [])
  }

  function Settle(c: Config, s: Client, next: Option<Text>): Turn {
    if Truthy(next) && s.active then Open(c, s) else Stepped(s.(status := Idle), [])
  }

  // ----- Frames -----

  function Window(seen: seq<Text>): seq<Text> {
    if |seen| > DEDUP_WINDOW then seen[1..] else seen
  }

  function Alive(s: Client): Client {
    ClearTimers(s.(failures := [], consecutiveFailures := 0)).(status := Live, lastError := None)
  }

  function Name(c: Config, event: Text): Text {
    if |c.eventPrefix| <= |event| then event[|c.eventPrefix|..] else []
  }

  predicate Wanted(c: Config, event: Text) {
    (c.eventPrefix == [] || c.eventPrefix <= event) && (c.types == None || Name(c, event) in c.types.value)
  }

  predicate Acceptable(c: Config, s: Client, id: Text, data: Text) {
    id != [] && id !in s.seen && c.json(data)
  }

  function Advance(s: Client): Client {
    if s.connection.Some? then s.(connection := Some(s.connection.value.(cursorAdvanced := true))) else s
  }

  /** `deliver`, and the note the frame callback takes when it returns true. */
  function Deliver(c: Config, s: Client, id: Text, event: Text, data: Text, reaction: Reaction): Turn {
    if !Acceptable(c, s, id, data) then Stepped(s, [])
    else
      var taken := Alive(Advance(s.(cursor := Some(id), seen := Window(s.seen + [id]))));
      var noted := [Accepted(id), FailuresForgotten];
      if Wanted(c, event) then After(noted + [Event(id, Name(c, event), data)], React(c, taken, reaction))
      else Stepped(taken, noted)
  }

  function ArmStale(s: Client, generation: nat): Client {
    s.(staleTimer := Some(generation))
  }

  /** The activity callback: applies a held opening status, then re-arms staleness. */
  function Touch(s: Client, generation: nat): Client
    requires s.connection.Some?
  {
    var conn := s.connection.value;
    var shown := if conn.held.Some? then s.(status := conn.held.value, connection := Some(conn.(held := None))) else s;
    ArmStale(shown, generation)
  }

  /** One parser callback of the connection opened as `generation`. */
  function Callback(c: Config, generation: nat, s: Client, output: Output, reaction: Reaction): Turn {
    if !Current(s, generation) then Stepped(s, [])
    else
      match output
      case Activity => Stepped(Touch(s, generation), [])
      case Comment => if c.commentIsActivity then Stepped(Alive(s), [FailuresForgotten]) else Stepped(s, [])
      case Frame(id, event, data) => Deliver(c, s, id, event, data, reaction)
  }

  /** The callbacks of one `feed`, in order, each with the reaction of the event it may emit. */
  function Callbacks(c: Config, generation: nat, s: Client, outputs: seq<Output>, reactions: seq<Reaction>): Turn
    decreases |outputs|
  {
    if outputs == [] then Stepped(s, [])
    else
      var first := Callback(c, generation, s, outputs[0], if reactions == [] then Nothing else reactions[0]);
      After(first.outputs, Callbacks(c, generation, first.state, outputs[1..], if reactions == [] then [] else reactions[1..]))
  }

  // ----- Byte accounting -----

  datatype Account = Account(bytes: nat, pendingHigh: Text)

  function Count(a: Account, suffix: Text): Account {
    var complete := a.pendingHigh + suffix;
    if EndsHigh(complete) then
      Account(a.bytes + Utf8Length(complete[..|complete| - 1]), complete[|complete| - 1..])
    else Account(a.bytes + Utf8Length(complete), [])
  }

  /** The part of a progress event before its callbacks run. */
  function Received(s: Client, text: Text): Client
    requires s.connection.Some?
  {
    var suffix := Suffix(s.offset, text);
    var account := Count(Account(s.receivedBytes, s.pendingHighSurrogate), suffix);
    var conn := s.connection.value;
    s.(offset := |text|, receivedBytes := account.bytes, pendingHighSurrogate := account.pendingHigh,
       connection := Some(conn.(parser := Parse(conn.parser, suffix).state)))
  }

  function Progress(c: Config, s: Client, generation: nat, text: Text, now: real, reactions: seq<Reaction>): Turn {
    if !Current(s, generation) then Stepped(s, [])
    else
      var outputs := Parse(s.connection.value.parser, Suffix(s.offset, text)).outputs;
      Digest(c, Received(s, text), generation, outputs, now, reactions)
  }

  function Digest(c: Config, s: Client, generation: nat, outputs: seq<Output>, now: real, reactions: seq<Reaction>): Turn {
    var fed := Callbacks(c, generation, s, outputs, reactions);
    After(fed.outputs, Overflow(c, fed.state, generation, now))
  }

  /** A connection that has received its byte limit is replaced; without progress that is a failure. */
  function Overflow(c: Config, s: Client, generation: nat, now: real): Turn {
    if !Current(s, generation) || s.receivedBytes as real < c.maxConnectionBytes then Stepped(s, [])
    else if s.connection.value.cursorAdvanced then ReopenPlanned(c, s, generation)
    else Failed(c, s, generation, None, false, false, now)
  }

  // ----- Closing, failing, reopening -----

  function ReopenPlanned(c: Config, s: Client, generation: nat): Turn {
    if !Current(s, generation) then Stepped(s, [])
    else
      var cancelled := CancelConnection(s);
      After(cancelled.outputs, Open(c, cancelled.state))
  }

  function ServerClosed(c: Config, s: Client, generation: nat, noContent: bool, now: real, reaction: Reaction): Turn {
    if !Current(s, generation) then Stepped(s, [])
    else
      var counted := !noContent && !c.okIsEndOfStream;
      var delivered := s.connection.value.cursorAdvanced;
      var immediate := !counted && (c.reopen == Immediate || (c.reopen == ImmediateAfterFrame && delivered));
      var discarded := MaybeDiscard(c, s, noContent, reaction);
      After(discarded.outputs, Failed(c, discarded.state, generation, None, !counted, immediate, now))
  }

  function MaybeDiscard(c: Config, s: Client, noContent: bool, reaction: Reaction): Turn {
    if noContent || c.closeDiscardsCursor then Discard(c, s, noContent, reaction) else Stepped(s, [])
  }

  function Discard(c: Config, s: Client, noContent: bool, reaction: Reaction): Turn {
    var hadCursor := s.cursor.Some?;
    var cleared := s.(cursor := None, seen := []);
    if hadCursor then
      After([Cleared(true), Resync(if noContent then NoContent else ServerClose)], React(c, cleared, reaction))
    else Stepped(cleared, [Cleared(false)])
  }

  function Recent(failures: seq<real>, now: real, window: real): seq<real> {
    if failures == [] then []
    else (if now - failures[0] <= window then [failures[0]] else []) + Recent(failures[1..], now, window)
  }

  function CountFailure(c: Config, s: Client, now: real): Client {
    s.(failures := Recent(s.failures, now, c.failureWindowMs) + [now], consecutiveFailures := s.consecutiveFailures + 1)
  }

  predicate Refused(s: Client, error: Option<Failure>) {
    !s.sessionActive ||
    (error.Some? && match error.value
                    case Unauthorized => true
                    case Http(status, _, _, _, _) => status == 401 || status == 403
                    case OtherError => false)
  }

  function ErrorOf(error: Failure, outcome: Outcome, now: real): LastError {
    if error.Http? then LastError(Some(error.status), Some(error.body), error, now, outcome)
    else LastError(None, None, error, now, outcome)
  }

  function Record(s: Client, error: Option<Failure>, outcome: Outcome, now: real): Client {
    if error == None then s else s.(lastError := Some(ErrorOf(error.value, outcome, now)))
  }

  /** `failed`: stops on a refusal, counts the failure, then reopens at once or after a delay. */
  function Failed(c: Config, s: Client, generation: nat, error: Option<Failure>, freshCursor: bool, reopenNow: bool, now: real): Turn {
    if !Current(s, generation) then Stepped(s, [])
    else
      var cancelled := CancelConnection(s);
      After(cancelled.outputs, AfterLoss(c, cancelled.state, error, freshCursor, reopenNow, now))
  }

  function AfterLoss(c: Config, s: Client, error: Option<Failure>, freshCursor: bool, reopenNow: bool, now: real): Turn {
    if Refused(s, error) then Stop(Record(s, error, WasStopped, now))
    else if freshCursor then Recover(c, s, error, freshCursor, reopenNow, now)
    else After([Counted(now)], Recover(c, CountFailure(c, s, now), error, freshCursor, reopenNow, now))
  }

  function EnterStatus(c: Config, s: Client, error: Option<Failure>, now: real): Client {
    var polling := |s.failures| as real >= c.failuresBeforePolling;
    var shown := Record(s.(status := if polling then Polling else Reconnecting), error, if polling then WillPoll else WillRetry, now);
    if polling then shown.(pollingTimer := true) else shown
  }

  function Recover(c: Config, s: Client, error: Option<Failure>, freshCursor: bool, reopenNow: bool, now: real): Turn {
    var entered := EnterStatus(c, s, error, now);
    var retryAfter := RetryAfter(error, now);
    var entersPolling := entered.status == Polling && s.status != Polling;
    if reopenNow || (entersPolling && !freshCursor && retryAfter == 0.0 && !c.backoffOnPollingEntry) then Open(c, entered)
    else Stepped(entered.(retryTimer := Some(Max(BackoffMs(c, entered.consecutiveFailures), retryAfter))), [])
  }

  // ----- Delays -----

  function Max(x: real, y: real): real { if x < y then y else x }
  function Min(x: real, y: real): real { if y < x then y else x }

  function RetryAfter(error: Option<Failure>, now: real): (delay: real)
    ensures delay >= 0.0
  {
    if error.None? || !error.value.Http? then 0.0
    else
      var http := error.value;
      var fromHeader :=
        if http.retryAfterSeconds.Some? then Max(0.0, http.retryAfterSeconds.value * 1000.0)
        else if http.retryAfterDate.Some? then Max(0.0, http.retryAfterDate.value - now)
        else 0.0;
      Max(fromHeader, if http.extracted.Some? then Max(0.0, http.extracted.value) else 0.0)
  }

  function Power2(n: nat): (p: real)
    ensures p >= 1.0
  {
    if n == 0 then 1.0 else 2.0 * Power2(n - 1)
  }

  function BackoffMs(c: Config, consecutiveFailures: nat): real {
    match c.retryMode
    case Fixed => c.initialMs
    case Exponential =>
      var doublings := if consecutiveFailures == 0 then 0 else if consecutiveFailures > 31 then 30 else consecutiveFailures - 1;
      Min(c.maxMs, c.initialMs * Power2(doublings))
  }

  // ----- Turns of the event loop -----

  datatype Input =
    | CallStart
    | CallStop
    | SessionBecomes(active: bool)
    | SessionEffect
    | TenantBecomes(next: Option<Text>, reaction: Reaction)
    | ProgressEvent(generation: nat, text: Text, now: real, reactions: seq<Reaction>)
    | ResponseEvent(generation: nat, noContent: bool, now: real, reaction: Reaction)
    | CompleteEvent(generation: nat, now: real, reaction: Reaction)
    | ErrorEvent(generation: nat, error: Failure, now: real)
    | StaleTimeout(generation: nat, now: real)
    | AgeTimeout(generation: nat)
    | RetryTimeout
    | PollTick(reaction: Reaction)

  /** A callback of a connection or of its timers, which carries the generation it was created with. */
  predicate FromConnection(input: Input) {
    input.ProgressEvent? || input.ResponseEvent? || input.CompleteEvent? || input.ErrorEvent? ||
    input.StaleTimeout? || input.AgeTimeout?
  }

  function Step(c: Config, s: Client, input: Input): Turn {
    match input
    case CallStart => Start(c, s)
    case CallStop => Stop(s)
    case SessionBecomes(active) => Stepped(s.(sessionActive := active), [])
    case SessionEffect => if !s.sessionActive && s.active then Stop(s) else Stepped(s, [])
    case TenantBecomes(next, reaction) => ChangeTenant(c, s, next, reaction)
    case ProgressEvent(generation, text, now, reactions) => Progress(c, s, generation, text, now, reactions)
    case ResponseEvent(generation, noContent, now, reaction) => ServerClosed(c, s, generation, noContent, now, reaction)
    case CompleteEvent(generation, now, reaction) => ServerClosed(c, s, generation, false, now, reaction)
    case ErrorEvent(generation, error, now) => Failed(c, s, generation, Some(error), false, false, now)
    case StaleTimeout(generation, now) => Failed(c, s, generation, None, false, false, now)
    case AgeTimeout(generation) => ReopenPlanned(c, s, generation)
    case RetryTimeout => if s.retryTimer == None then Stepped(s, []) else Open(c, s.(retryTimer := None))
    case PollTick(reaction) => Poll(c, s, reaction)
  }

  /** The polling interval fires only while its timer is set. */
  function Poll(c: Config, s: Client, reaction: Reaction): Turn {
    if !s.pollingTimer then Stepped(s, [])
    else if !s.sessionActive then Stop(s)
    else After([Tick], React(c, s, reaction))
  }

  const INITIAL := Client(true, None, Idle, None, None, None, None, None, None, false, false, false,
                          0, 0, 0, [], [], [], 0, None)

  /** A client before its first start, in any session and tenant. */
  function Fresh(sessionActive: bool, tenantId: Option<Text>): Client {
    INITIAL.(sessionActive := sessionActive, tenantId := tenantId)
  }

  function RunClient(c: Config, s: Client, inputs: seq<Input>): Turn {
    Run((s: Client, input: Input) => Step(c, s, input), s, inputs)
  }
}
