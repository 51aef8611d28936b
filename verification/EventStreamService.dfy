/**
 The event-stream client in the source's own form: one object whose methods update its fields, which
 are kept here in a few records.  Every method is proved to do exactly what the turn of the same name
 in `EventStream` does, and to append that turn's effects to `emitted`.
 */
module EventStreamServices {
  import opened Wrappers
  import opened Machines
  import opened Utf16
  import opened FrameParsing
  import opened EventStream

  /** The session signal and the tenant service. */
  datatype Host = Host(sessionActive: bool, tenantId: Option<Text>)

  datatype Signals = Signals(status: Status, cursor: Option<Text>, lastError: Option<LastError>)

  datatype Timers = Timers(retry: Option<real>, stale: Option<nat>, age: Option<nat>, polling: bool)

  /** The open connection's closure variables, its parser apart. */
  datatype Link = Link(cursorAdvanced: bool, held: Option<Status>)

  datatype Receipt = Receipt(offset: nat, receivedBytes: nat, pendingHighSurrogate: Text)

  datatype Life = Life(active: bool, subscribed: bool, generation: nat, currentTenant: Option<Text>)

  datatype Memory = Memory(seen: seq<Text>, failures: seq<real>, consecutiveFailures: nat)

  class StynxEventStreamService {
    const config: Config
    var emitted: seq<Effect>
    var host: Host
    var signals: Signals
    var timers: Timers
    var link: Option<Link>
    var parser: FrameParser
    var receipt: Receipt
    var life: Life
    var memory: Memory

    function State(): Client
      reads this, parser
    {
      Client(host.sessionActive, host.tenantId, signals.status, signals.cursor, signals.lastError,
             if link.Some? then Some(Connection(parser.State(), link.value.cursorAdvanced, link.value.held)) else None,
             timers.retry, timers.stale, timers.age, timers.polling, life.subscribed, life.active, life.generation,
             receipt.offset, receipt.receivedBytes, receipt.pendingHighSurrogate,
             memory.seen, memory.failures, memory.consecutiveFailures, life.currentTenant)
    }

    /** Where the service stands and what it has emitted. */
    function Log(): Turn
      reads this, parser
    {
      Stepped(State(), emitted)
    }

    predicate Valid()
      reads this, parser
    {
      parser.Valid()
    }

    /** A callback of the connection opened as `tag` is still wanted. */
    predicate Wants(tag: nat)
      reads this
    {
      tag == life.generation && life.active && link.Some?
    }

    constructor (config: Config, sessionActive: bool, tenantId: Option<Text>)
      ensures Valid() && fresh(parser)
      ensures this.config == config && Log() == Stepped(Fresh(sessionActive, tenantId), [])
    {
      this.config, host, emitted := config, Host(sessionActive, tenantId), [];
      signals, timers := Signals(Idle, None, None), Timers(None, None, None, false);
      receipt, life, memory := Receipt(0, 0, []), Life(false, false, 0, None), Memory([], [], 0);
      link := None;
      parser := new FrameParser();
    }

    method CancelConnection()
      requires Valid()
      modifies this`life, this`emitted, this`link, this`timers
      ensures Valid()
      ensures Log() == After(old(emitted), EventStream.CancelConnection(old(State())))
    {
      life := life.(generation := life.generation + 1);
      emitted := emitted + (if link.Some? then [Disconnect] else []);
      link := None;
      timers := timers.(stale := None, age := None);
    }

    method ClearTimers()
      requires Valid()
      modifies this`timers
      ensures Valid() && State() == EventStream.ClearTimers(old(State()))
    {
      timers := timers.(retry := None, polling := false);
    }

    method Stop()
      requires Valid()
      modifies this
      ensures Valid() && parser == old(parser)
      ensures Log() == After(old(emitted), EventStream.Stop(old(State())))
    {
      life := life.(active := false);
      CancelConnection();
      ClearTimers();
      life := life.(subscribed := false);
      signals := signals.(status := Stopped);
    }

    method Open()
      requires Valid()
      modifies this
      ensures Valid() && (parser == old(parser) || fresh(parser))
      ensures Log() == After(old(emitted), EventStream.Open(config, old(State())))
    {
      if !life.active || !host.sessionActive {
        Stop();
        return;
      }
      if config.tenancy && !Truthy(host.tenantId) {
        signals := signals.(status := Idle);
        assert emitted == emitted + [];
        return;
      }
      CancelConnection();
      Connect();
    }

    method Connect()
      requires Valid()
      modifies this
      ensures Valid() && fresh(parser)
      ensures State() == Connected(config, old(State()))
      ensures emitted == old(emitted) + [EventStream.Connect(old(signals.cursor))]
    {
      receipt := Receipt(0, 0, []);
      var opening := if timers.polling then Polling else if memory.consecutiveFailures > 0 then Reconnecting else Live;
      var held := if config.firstLine then Some(opening) else None;
      if held == None {
        signals := signals.(status := opening);
      }
      parser := new FrameParser();
      timers := timers.(stale := Some(life.generation), age := Some(life.generation));
      link := Some(Link(false, held));
      emitted := emitted + [EventStream.Connect(signals.cursor)];
    }

    method Start()
      requires Valid()
      modifies this
      ensures Valid() && (parser == old(parser) || fresh(parser))
      ensures Log() == After(old(emitted), EventStream.Start(config, old(State())))
    {
      assert emitted + [] == emitted;
      if life.active {
        return;
      }
      if !host.sessionActive {
        signals := signals.(status := Stopped);
        return;
      }
      signals := signals.(lastError := None, status := if config.firstLine then Idle else signals.status);
      life := life.(active := true, currentTenant := if config.tenancy then host.tenantId else None,
                    subscribed := config.tenancy);
      if !config.tenancy || Truthy(life.currentTenant) {
        Open();
      }
    }

    method React(reaction: Reaction)
      requires Valid()
      modifies this
      ensures Valid() && (parser == old(parser) || fresh(parser))
      ensures Log() == After(old(emitted), EventStream.React(config, old(State()), reaction))
    {
      assert emitted + [] == emitted;
      match reaction
      case Nothing =>
      case CallsStop => Stop();
      case CallsRestart =>
        Stop();
        Start();
    }

    method EmitAll(news: seq<Effect>)
      requires Valid()
      modifies this`emitted
      ensures Valid() && State() == old(State()) && emitted == old(emitted) + news
    {
      emitted := emitted + news;
    }

    /** Subscribers hear of something, and one of them may stop or restart the client. */
    method Announce(news: seq<Effect>, reaction: Reaction)
      requires Valid()
      modifies this
      ensures Valid() && (parser == old(parser) || fresh(parser))
      ensures Log() == After(old(emitted), After(news, EventStream.React(config, old(State()), reaction)))
    {
      AfterTwice(emitted, news, EventStream.React(config, State(), reaction));
      EmitAll(news);
      React(reaction);
    }

    /** The tenant service changes its tenant and calls the subscription. */
    method TenantChanged(next: Option<Text>, reaction: Reaction)
      requires Valid()
      modifies this
      ensures Valid() && (parser == old(parser) || fresh(parser))
      ensures Log() == After(old(emitted), ChangeTenant(config, old(State()), next, reaction))
    {
      if !life.subscribed || next == life.currentTenant {
        host := host.(tenantId := next);
        assert emitted + [] == emitted;
        return;
      }
      var hadCursor := signals.cursor.Some?;
      ghost var reset := ResetFor(State(), next);
      AfterAfter(emitted, Stepped(reset, Resetting(State())), Tell(config, reset, hadCursor, next, reaction));
      DropTenant(next);
      Notify(hadCursor, next, reaction);
    }

    method DropTenant(next: Option<Text>)
      requires Valid()
      modifies this
      ensures Valid() && parser == old(parser)
      ensures State() == ResetFor(old(State()), next)
      ensures emitted == old(emitted) + Resetting(old(State()))
    {
      emitted := emitted + [Cleared(signals.cursor.Some?), FailuresForgotten];
      ForgetTenant(next);
      CancelConnection();
      ClearTimers();
    }

    method ForgetTenant(next: Option<Text>)
      requires Valid()
      modifies this`host, this`life, this`signals, this`memory
      ensures Valid()
      ensures State() == old(State()).(tenantId := next, currentTenant := next, cursor := None, seen := [], failures := [],
                                       consecutiveFailures := 0, lastError := None)
    {
      host := host.(tenantId := next);
      life := life.(currentTenant := next);
      signals, memory := signals.(cursor := None, lastError := None), Memory([], [], 0);
    }

    method Notify(hadCursor: bool, next: Option<Text>, reaction: Reaction)
      requires Valid()
      modifies this
      ensures Valid() && (parser == old(parser) || fresh(parser))
      ensures Log() == After(old(emitted), Tell(config, old(State()), hadCursor, next, reaction))
    {
      var before := life.generation;
      ghost var told := EventStream.Told(config, State(), hadCursor, reaction);
      NotifyResync(hadCursor, reaction);
      if before == life.generation {
        AfterAfter(old(emitted), told, Settle(config, told.state, next));
        SettleFor(next);
      } else {
        AfterAfter(old(emitted), told, Stepped(told.state, []));
        assert emitted + [] == emitted;
      }
    }

    method NotifyResync(hadCursor: bool, reaction: Reaction)
      requires Valid()
      modifies this
      ensures Valid() && (parser == old(parser) || fresh(parser))
      ensures Log() == After(old(emitted), Told(config, old(State()), hadCursor, reaction))
    {
      assert emitted + [] == emitted;
      if hadCursor {
        Announce([Resync(TenantChange)], reaction);
      }
    }

    method SettleFor(next: Option<Text>)
      requires Valid()
      modifies this
      ensures Valid() && (parser == old(parser) || fresh(parser))
      ensures Log() == After(old(emitted), Settle(config, old(State()), next))
    {
      if Truthy(next) && life.active {
        Open();
      } else {
        signals := signals.(status := Idle);
        assert emitted + [] == emitted;
      }
    }

    method Alive()
      requires Valid()
      modifies this`memory, this`emitted, this`timers, this`signals
      ensures Valid() && emitted == old(emitted) + [FailuresForgotten]
      ensures State() == EventStream.Alive(old(State()))
    {
      memory := memory.(failures := [], consecutiveFailures := 0);
      emitted := emitted + [FailuresForgotten];
      ClearTimers();
      signals := signals.(status := Live, lastError := None);
    }

    method Deliver(id: Text, event: Text, data: Text, reaction: Reaction)
      requires Valid() && link.Some?
      modifies this
      ensures Valid() && (parser == old(parser) || fresh(parser))
      ensures Log() == After(old(emitted), EventStream.Deliver(config, old(State()), id, event, data, reaction))
    {
      if id == [] || id in memory.seen || !config.json(data) {
        assert emitted + [] == emitted;
        return;
      }
      ghost var noted := [Accepted(id), FailuresForgotten];
      Take(id);
      if Wanted(config, event) {
        ghost var news := [Event(id, Name(config, event), data)];
        AfterAfter(old(emitted), Stepped(State(), noted), After(news, EventStream.React(config, State(), reaction)));
        AfterTwice(noted, news, EventStream.React(config, State(), reaction));
        Announce([Event(id, Name(config, event), data)], reaction);
      }
    }

    /** An acceptable frame moves the cursor and the dedup window. */
    method Take(id: Text)
      requires Valid() && link.Some?
      modifies this
      ensures Valid() && parser == old(parser)
      ensures emitted == old(emitted) + [Accepted(id), FailuresForgotten]
      ensures State() == EventStream.Alive(Advance(old(State()).(cursor := Some(id), seen := Window(old(memory.seen) + [id]))))
    {
      signals := signals.(cursor := Some(id));
      emitted := emitted + [Accepted(id)];
      memory := memory.(seen := memory.seen + [id]);
      if |memory.seen| > DEDUP_WINDOW {
        memory := memory.(seen := memory.seen[1..]);
      }
      // Only this connection's closure reads the note, so it can be taken before the handler runs.
      link := Some(link.value.(cursorAdvanced := true));
      Alive();
    }

    /** One callback of the parser of the connection opened as `tag`. */
    method OnParsed(tag: nat, output: Output, reaction: Reaction)
      requires Valid()
      modifies this
      ensures Valid() && (parser == old(parser) || fresh(parser))
      ensures Log() == After(old(emitted), Callback(config, tag, old(State()), output, reaction))
    {
      assert emitted + [] == emitted;
      if !Wants(tag) {
        return;
      }
      match output
      case Activity =>
        if link.value.held.Some? {
          signals := signals.(status := link.value.held.value);
          link := Some(link.value.(held := None));
        }
        timers := timers.(stale := Some(tag));
      case Comment =>
        if config.commentIsActivity {
          Alive();
        }
      case Frame(id, event, data) => Deliver(id, event, data, reaction);
    }

    method Progress(tag: nat, text: Text, now: real, reactions: seq<Reaction>)
      requires Valid()
      modifies this, parser
      ensures Valid() && (parser == old(parser) || fresh(parser))
      ensures Log() == After(old(emitted), EventStream.Progress(config, old(State()), tag, text, now, reactions))
    {
      if !Wants(tag) {
        assert emitted + [] == emitted;
        return;
      }
      var outputs := Receive(text);
      DigestAll(tag, outputs, now, reactions);
    }

    method DigestAll(tag: nat, outputs: seq<Output>, now: real, reactions: seq<Reaction>)
      requires Valid()
      modifies this
      ensures Valid() && (parser == old(parser) || fresh(parser))
      ensures Log() == After(old(emitted), Digest(config, old(State()), tag, outputs, now, reactions))
    {
      ghost var fed := Callbacks(config, tag, State(), outputs, reactions);
      AfterAfter(emitted, fed, Overflow(config, fed.state, tag, now));
      OnAllParsed(tag, outputs, reactions);
      CheckOverflow(tag, now);
    }

    method Receive(text: Text) returns (outputs: seq<Output>)
      requires Valid() && link.Some?
      modifies this`receipt, parser
      ensures Valid()
      ensures outputs == Parse(old(parser.State()), Suffix(old(receipt.offset), text)).outputs
      ensures State() == Received(old(State()), text)
    {
      var suffix := Suffix(receipt.offset, text);
      receipt := receipt.(offset := |text|);
      Measure(suffix);
      outputs := parser.Feed(suffix);
    }

    /** The surrogate-aware byte count of one suffix. */
    method Measure(suffix: Text)
      requires Valid()
      modifies this`receipt
      ensures Valid() && receipt.offset == old(receipt.offset)
      ensures Account(receipt.receivedBytes, receipt.pendingHighSurrogate) ==
              Count(Account(old(receipt.receivedBytes), old(receipt.pendingHighSurrogate)), suffix)
    {
      var complete := receipt.pendingHighSurrogate + suffix;
      var pending: Text := [];
      if EndsHigh(complete) {
        pending := complete[|complete| - 1..];
        complete := complete[..|complete| - 1];
      }
      receipt := Receipt(receipt.offset, receipt.receivedBytes + Utf8Length(complete), pending);
    }

    method OnAllParsed(tag: nat, outputs: seq<Output>, reactions: seq<Reaction>)
      requires Valid()
      modifies this
      ensures Valid() && (parser == old(parser) || fresh(parser))
      ensures Log() == After(old(emitted), Callbacks(config, tag, old(State()), outputs, reactions))
    {
      ghost var all := Callbacks(config, tag, State(), outputs, reactions);
      var i, left := 0, reactions;
      assert outputs[0..] == outputs;
      while i < |outputs|
        invariant 0 <= i <= |outputs|
        invariant Valid() && (parser == old(parser) || fresh(parser))
        invariant Remaining(all, old(emitted), Log(), Callbacks(config, tag, State(), outputs[i..], left))
      {
        ghost var before := Log();
        OnParsed(tag, outputs[i], if left == [] then Nothing else left[0]);
        OneCallback(config, tag, before, outputs, i, left, all, old(emitted), Log());
        left := if left == [] then [] else left[1..];
        i := i + 1;
      }
      assert outputs[i..] == [] && emitted + [] == emitted;
    }

    method CheckOverflow(tag: nat, now: real)
      requires Valid()
      modifies this
      ensures Valid() && (parser == old(parser) || fresh(parser))
      ensures Log() == After(old(emitted), Overflow(config, old(State()), tag, now))
    {
      assert emitted + [] == emitted;
      if !Wants(tag) {
        return;
      }
      if receipt.receivedBytes as real >= config.maxConnectionBytes {
        if link.value.cursorAdvanced {
          ReopenPlanned(tag);
        } else {
          Failed(tag, None, false, false, now);
        }
      }
    }

    method ServerClosed(tag: nat, noContent: bool, now: real, reaction: Reaction)
      requires Valid()
      modifies this
      ensures Valid() && (parser == old(parser) || fresh(parser))
      ensures Log() == After(old(emitted), EventStream.ServerClosed(config, old(State()), tag, noContent, now, reaction))
    {
      assert emitted + [] == emitted;
      if !Wants(tag) {
        return;
      }
      var counted := !noContent && !config.okIsEndOfStream;
      var delivered := link.value.cursorAdvanced;
      var immediate := !counted && (config.reopen == Immediate || (config.reopen == ImmediateAfterFrame && delivered));
      ghost var discarded := MaybeDiscard(config, State(), noContent, reaction);
      AfterAfter(emitted, discarded, EventStream.Failed(config, discarded.state, tag, None, !counted, immediate, now));
      DiscardIfDue(noContent, reaction);
      Failed(tag, None, !counted, immediate, now);
    }

    method DiscardIfDue(noContent: bool, reaction: Reaction)
      requires Valid()
      modifies this
      ensures Valid() && (parser == old(parser) || fresh(parser))
      ensures Log() == After(old(emitted), MaybeDiscard(config, old(State()), noContent, reaction))
    {
      assert emitted + [] == emitted;
      if noContent || config.closeDiscardsCursor {
        DiscardCursor(noContent, reaction);
      }
    }

    method DiscardCursor(noContent: bool, reaction: Reaction)
      requires Valid()
      modifies this
      ensures Valid() && (parser == old(parser) || fresh(parser))
      ensures Log() == After(old(emitted), Discard(config, old(State()), noContent, reaction))
    {
      var hadCursor := signals.cursor.Some?;
      ForgetCursor();
      if hadCursor {
        Announce([Cleared(true), Resync(if noContent then NoContent else ServerClose)], reaction);
      } else {
        emitted := emitted + [Cleared(false)];
      }
    }

    method ForgetCursor()
      requires Valid()
      modifies this`signals, this`memory
      ensures Valid() && State() == old(State()).(cursor := None, seen := [])
    {
      signals := signals.(cursor := None);
      memory := memory.(seen := []);
    }

    method ReopenPlanned(tag: nat)
      requires Valid()
      modifies this
      ensures Valid() && (parser == old(parser) || fresh(parser))
      ensures Log() == After(old(emitted), EventStream.ReopenPlanned(config, old(State()), tag))
    {
      assert emitted + [] == emitted;
      if !Wants(tag) {
        return;
      }
      CancelConnection();
      Open();
    }

    method Failed(tag: nat, error: Option<Failure>, freshCursor: bool, reopenNow: bool, now: real)
      requires Valid()
      modifies this
      ensures Valid() && (parser == old(parser) || fresh(parser))
      ensures Log() == After(old(emitted), EventStream.Failed(config, old(State()), tag, error, freshCursor, reopenNow, now))
    {
      assert emitted + [] == emitted;
      if !Wants(tag) {
        return;
      }
      ghost var cancelled := EventStream.CancelConnection(State());
      AfterAfter(emitted, cancelled, AfterLoss(config, cancelled.state, error, freshCursor, reopenNow, now));
      CancelConnection();
      GoOn(error, freshCursor, reopenNow, now);
    }

    /** The rest of `failed`, once the connection is gone. */
    method GoOn(error: Option<Failure>, freshCursor: bool, reopenNow: bool, now: real)
      requires Valid()
      modifies this
      ensures Valid() && (parser == old(parser) || fresh(parser))
      ensures Log() == After(old(emitted), AfterLoss(config, old(State()), error, freshCursor, reopenNow, now))
    {
      if Refused(State(), error) {
        RecordError(error, WasStopped, now);
        Stop();
        return;
      }
      if freshCursor {
        Recover(error, freshCursor, reopenNow, now);
      } else {
        CountAndRecover(error, reopenNow, now);
      }
    }

    method CountAndRecover(error: Option<Failure>, reopenNow: bool, now: real)
      requires Valid()
      modifies this
      ensures Valid() && (parser == old(parser) || fresh(parser))
      ensures Log() == After(old(emitted), After([Counted(now)],
                EventStream.Recover(config, CountFailure(config, old(State()), now), error, false, reopenNow, now)))
    {
      ghost var counted := CountFailure(config, State(), now);
      AfterAfter(emitted, Stepped(counted, [Counted(now)]), EventStream.Recover(config, counted, error, false, reopenNow, now));
      CountIt(now);
      Recover(error, false, reopenNow, now);
    }

    method CountIt(now: real)
      requires Valid()
      modifies this`memory, this`emitted
      ensures Valid() && emitted == old(emitted) + [Counted(now)]
      ensures State() == CountFailure(config, old(State()), now)
    {
      memory := memory.(failures := Recent(memory.failures, now, config.failureWindowMs) + [now],
                        consecutiveFailures := memory.consecutiveFailures + 1);
      emitted := emitted + [Counted(now)];
    }

    method Recover(error: Option<Failure>, freshCursor: bool, reopenNow: bool, now: real)
      requires Valid()
      modifies this
      ensures Valid() && (parser == old(parser) || fresh(parser))
      ensures Log() == After(old(emitted), EventStream.Recover(config, old(State()), error, freshCursor, reopenNow, now))
    {
      var wasPolling := signals.status == Polling;
      var polling := ShowFailure(error, now);
      if reopenNow {
        Open();
        return;
      }
      var retryAfter := RetryAfter(error, now);
      if polling && !wasPolling && !freshCursor && retryAfter == 0.0 && !config.backoffOnPollingEntry {
        Open();
        return;
      }
      timers := timers.(retry := Some(Max(BackoffMs(config, memory.consecutiveFailures), retryAfter)));
      assert emitted + [] == emitted;
    }

    method ShowFailure(error: Option<Failure>, now: real) returns (polling: bool)
      requires Valid()
      modifies this`signals, this`timers
      ensures Valid() && State() == EnterStatus(config, old(State()), error, now)
      ensures polling == (signals.status == Polling)
    {
      polling := |memory.failures| as real >= config.failuresBeforePolling;
      signals := signals.(status := if polling then Polling else Reconnecting);
      RecordError(error, if polling then WillPoll else WillRetry, now);
      if polling && !timers.polling {
        timers := timers.(polling := true);
      }
    }

    method RecordError(error: Option<Failure>, outcome: Outcome, now: real)
      requires Valid()
      modifies this`signals
      ensures Valid() && State() == Record(old(State()), error, outcome, now)
    {
      if error.Some? {
        var status := if error.value.Http? then Some(error.value.status) else None;
        var body := if error.value.Http? then Some(error.value.body) else None;
        signals := signals.(lastError := Some(LastError(status, body, error.value, now, outcome)));
      }
    }

    method PollingTick(reaction: Reaction)
      requires Valid()
      modifies this
      ensures Valid() && (parser == old(parser) || fresh(parser))
      ensures Log() == After(old(emitted), Poll(config, old(State()), reaction))
    {
      assert emitted + [] == emitted;
      if timers.polling {
        if !host.sessionActive {
          Stop();
        } else {
          Announce([Tick], reaction);
        }
      }
    }

    /** The session signal changes, or its effect runs, or a timer that carries no generation fires. */
    method HandleSimple(input: Input)
      requires Valid()
      requires input.SessionBecomes? || input.SessionEffect? || input.RetryTimeout?
      modifies this
      ensures Valid() && (parser == old(parser) || fresh(parser))
      ensures Log() == After(old(emitted), Step(config, old(State()), input))
    {
      assert emitted + [] == emitted;
      match input
      case SessionBecomes(active) => host := host.(sessionActive := active);
      case SessionEffect => if !host.sessionActive && life.active { Stop(); }
      case RetryTimeout =>
        if timers.retry.Some? {
          timers := timers.(retry := None);
          Open();
        }
    }

    /** One turn of the event loop. */
    method Handle(input: Input)
      requires Valid()
      modifies this, parser
      ensures Valid() && (parser == old(parser) || fresh(parser))
      ensures Log() == After(old(emitted), Step(config, old(State()), input))
    {
      match input
      case CallStart => Start();
      case CallStop => Stop();
      case TenantBecomes(next, reaction) => TenantChanged(next, reaction);
      case ProgressEvent(tag, text, now, reactions) => Progress(tag, text, now, reactions);
      case ResponseEvent(tag, noContent, now, reaction) => ServerClosed(tag, noContent, now, reaction);
      case CompleteEvent(tag, now, reaction) => ServerClosed(tag, false, now, reaction);
      case ErrorEvent(tag, error, now) => Failed(tag, Some(error), false, false, now);
      case StaleTimeout(tag, now) => Failed(tag, None, false, false, now);
      case AgeTimeout(tag) => ReopenPlanned(tag);
      case PollTick(reaction) => PollingTick(reaction);
      case _ => HandleSimple(input);
    }

    /** Any number of turns. */
    method HandleAll(inputs: seq<Input>)
      requires Valid()
      modifies this, parser
      ensures Valid() && (parser == old(parser) || fresh(parser))
      ensures Log() == After(old(emitted), RunClient(config, old(State()), inputs))
    {
      ghost var all := RunClient(config, State(), inputs);
      assert inputs[0..] == inputs;
      for i := 0 to |inputs|
        invariant Valid() && (parser == old(parser) || fresh(parser))
        invariant Remaining(all, old(emitted), Log(), RunClient(config, State(), inputs[i..]))
      {
        ghost var before := Log();
        Handle(inputs[i]);
        OneTurn(config, before, inputs, i, all, old(emitted), Log());
      }
      assert inputs[|inputs|..] == [] && emitted + [] == emitted;
    }
  }

  lemma OneTurn(c: Config, before: Turn, inputs: seq<Input>, i: nat, all: Turn, emitted: seq<Effect>, after: Turn)
    requires i < |inputs|
    requires Remaining(all, emitted, before, RunClient(c, before.state, inputs[i..]))
    requires after == After(before.outputs, Step(c, before.state, inputs[i]))
    ensures Remaining(all, emitted, after, RunClient(c, after.state, inputs[i + 1..]))
  {
    assert inputs[i..][1..] == inputs[i + 1..];
    AfterAfter(before.outputs, Step(c, before.state, inputs[i]), RunClient(c, after.state, inputs[i + 1..]));
  }

  /** `log` and then `rest` is what `all` does after `emitted`. */
  ghost predicate Remaining(all: Turn, emitted: seq<Effect>, log: Turn, rest: Turn) {
    all.state == rest.state && emitted + all.outputs == log.outputs + rest.outputs
  }

  lemma AfterAfter(emitted: seq<Effect>, first: Turn, next: Turn)
    ensures After(After(emitted, first).outputs, next) == After(emitted, After(first.outputs, next))
  {
    assert emitted + first.outputs + next.outputs == emitted + (first.outputs + next.outputs);
  }

  lemma AfterTwice(emitted: seq<Effect>, news: seq<Effect>, turn: Turn)
    ensures After(emitted + news, turn) == After(emitted, After(news, turn))
  {
    AfterAfter(emitted, Stepped(turn.state, news), turn);
  }

  lemma OneCallback(c: Config, tag: nat, before: Turn, outputs: seq<Output>, i: nat, left: seq<Reaction>,
                    all: Turn, emitted: seq<Effect>, after: Turn)
    requires i < |outputs|
    requires Remaining(all, emitted, before, Callbacks(c, tag, before.state, outputs[i..], left))
    requires after == After(before.outputs, Callback(c, tag, before.state, outputs[i], if left == [] then Nothing else left[0]))
    ensures Remaining(all, emitted, after,
                      Callbacks(c, tag, after.state, outputs[i + 1..], if left == [] then [] else left[1..]))
  {
    assert outputs[i..][1..] == outputs[i + 1..];
    var rest := Callbacks(c, tag, after.state, outputs[i + 1..], if left == [] then [] else left[1..]);
    var one := Callback(c, tag, before.state, outputs[i], if left == [] then Nothing else left[0]);
    AfterAfter(before.outputs, one, rest);
  }
}
