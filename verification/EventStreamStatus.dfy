/**
 What the event-stream client shows.  A client is honest when the polling it shows has its timer.
 Under `openStatus: 'first-line'` one kind of turn, and no other, makes an honest client dishonest: a
 tenant change that opens a connection while polling is shown.
 */
module EventStreamStatus {
  import opened Wrappers
  import opened Machines
  import opened Utf16
  import opened FrameParsing
  import opened EventStream
  import opened EventStreamRuns

  /**
   After every run: polling is shown only while the polling timer runs, or under `openStatus: 'first-line'`
   until the first line of the connection opened last; live only with an open connection, no polling timer
   and no failure.
   */
  lemma StatusTellsTheTruth(c: Config, sessionActive: bool, tenantId: Option<Text>, inputs: seq<Input>)
    ensures var s := RunClient(c, Fresh(sessionActive, tenantId), inputs).state;
            && (s.status == Polling ==> s.pollingTimer || (c.firstLine && Waits(s)))
            && (s.status == Live ==> s.connection.Some? && !s.pollingTimer && s.consecutiveFailures == 0 && s.failures == [])
  {
    RunIsGood(c, sessionActive, tenantId, inputs);
  }

  predicate Honest(s: Client) {
    s.status == Polling ==> s.pollingTimer
  }

  /** A tenant change that drops the polling timer, opens at once, and leaves the status to the first line. */
  predicate Breaks(c: Config, s: Client, input: Input) {
    && input.TenantBecomes? && c.firstLine
    && s.status == Polling && s.subscribed && s.sessionActive
    && Truthy(input.next) && input.next != s.currentTenant
    && (s.cursor == None || input.reaction == Nothing)
  }

  // ----- start, stop, open -----

  lemma StopIsHonest(s: Client)
    ensures Honest(Stop(s).state)
  {
  }

  lemma OpenIsHonest(c: Config, s: Client)
    requires c.firstLine ==> Honest(s)
    ensures Honest(Open(c, s).state)
  {
  }

  lemma StartIsHonest(c: Config, s: Client)
    requires Honest(s)
    ensures Honest(Start(c, s).state)
  {
    OpenIsHonest(c, Started(c, s));
  }

  lemma ReactIsHonest(c: Config, s: Client, reaction: Reaction)
    requires reaction == Nothing ==> Honest(s)
    ensures Honest(React(c, s, reaction).state)
  {
    StopIsHonest(s);
    StartIsHonest(c, Stop(s).state);
  }

  // ----- Tenant changes -----

  /** After a reset the polling timer is gone, and only a held-back status is still that of before. */
  lemma SettleIsHonestIff(c: Config, s: Client, next: Option<Text>)
    requires c.tenancy && s.tenantId == next && !s.pollingTimer
    ensures Honest(Settle(c, s, next).state) <==>
            !(c.firstLine && s.status == Polling && s.active && s.sessionActive && Truthy(next))
  {
  }

  lemma TellIsHonestIff(c: Config, s: Client, hadCursor: bool, next: Option<Text>, reaction: Reaction)
    requires c.tenancy && s.tenantId == next && !s.pollingTimer
    ensures Honest(Tell(c, s, hadCursor, next, reaction).state) <==>
            (hadCursor && reaction != Nothing) || Honest(Settle(c, s, next).state)
  {
    ReactRaisesGeneration(c, s, reaction);
    if reaction != Nothing {
      ReactIsHonest(c, s, reaction);
    }
  }

  lemma TenantIsHonestIff(c: Config, s: Client, next: Option<Text>, reaction: Reaction)
    requires Inv(c, s) && Honest(s)
    ensures Honest(ChangeTenant(c, s, next, reaction).state) <==> !Breaks(c, s, TenantBecomes(next, reaction))
  {
    if s.subscribed && next != s.currentTenant {
      TellIsHonestIff(c, ResetFor(s, next), s.cursor.Some?, next, reaction);
      SettleIsHonestIff(c, ResetFor(s, next), next);
    }
  }

  // ----- Frames -----

  lemma DeliverIsHonest(c: Config, s: Client, id: Text, event: Text, data: Text, reaction: Reaction)
    requires Honest(s)
    ensures Honest(Deliver(c, s, id, event, data, reaction).state)
  {
    ReactIsHonest(c, Alive(Advance(s.(cursor := Some(id), seen := Window(s.seen + [id])))), reaction);
  }

  lemma CallbackIsHonest(c: Config, generation: nat, s: Client, output: Output, reaction: Reaction)
    requires StatusTrue(c, s) && Honest(s)
    ensures Honest(Callback(c, generation, s, output, reaction).state)
  {
    if output.Frame? {
      DeliverIsHonest(c, s, output.id, output.event, output.data, reaction);
    }
  }

  lemma {:induction false} CallbacksAreHonest(c: Config, generation: nat, s: Client, a: Audit, outputs: seq<Output>, reactions: seq<Reaction>)
    requires Good(c, s, a) && Honest(s)
    requires Current(s, generation) && Waits(s) ==> Led(outputs)
    ensures Honest(Callbacks(c, generation, s, outputs, reactions).state)
    decreases |outputs|
  {
    if outputs != [] {
      var reaction := if reactions == [] then Nothing else reactions[0];
      var first := Callback(c, generation, s, outputs[0], reaction);
      CallbackIsHonest(c, generation, s, outputs[0], reaction);
      CallbackEnds(c, generation, s, a, outputs[0], reaction);
      CallbacksAreHonest(c, generation, first.state, Replay(a, first.outputs), outputs[1..],
                         if reactions == [] then [] else reactions[1..]);
    }
  }

  // ----- Closing and failing -----

  lemma ReopenIsHonest(c: Config, s: Client, generation: nat)
    requires Honest(s)
    ensures Honest(ReopenPlanned(c, s, generation).state)
  {
    OpenIsHonest(c, CancelConnection(s).state);
  }

  lemma RecoverIsHonest(c: Config, s: Client, error: Option<Failure>, freshCursor: bool, reopenNow: bool, now: real)
    ensures Honest(Recover(c, s, error, freshCursor, reopenNow, now).state)
  {
    var entered := EnterStatus(c, s, error, now);
    assert Honest(entered);
    OpenIsHonest(c, entered);
  }

  lemma LossIsHonest(c: Config, s: Client, error: Option<Failure>, freshCursor: bool, reopenNow: bool, now: real)
    ensures Honest(AfterLoss(c, s, error, freshCursor, reopenNow, now).state)
  {
    StopIsHonest(Record(s, error, WasStopped, now));
    RecoverIsHonest(c, if freshCursor then s else CountFailure(c, s, now), error, freshCursor, reopenNow, now);
  }

  lemma FailedIsHonest(c: Config, s: Client, generation: nat, error: Option<Failure>, freshCursor: bool, reopenNow: bool, now: real)
    requires Honest(s)
    ensures Honest(Failed(c, s, generation, error, freshCursor, reopenNow, now).state)
  {
    LossIsHonest(c, CancelConnection(s).state, error, freshCursor, reopenNow, now);
  }

  lemma DiscardIsHonest(c: Config, s: Client, noContent: bool, reaction: Reaction)
    requires Honest(s)
    ensures Honest(Discard(c, s, noContent, reaction).state)
  {
    ReactIsHonest(c, s.(cursor := None, seen := []), reaction);
  }

  lemma ServerClosedIsHonest(c: Config, s: Client, generation: nat, noContent: bool, now: real, reaction: Reaction)
    requires Honest(s)
    ensures Honest(ServerClosed(c, s, generation, noContent, now, reaction).state)
  {
    if Current(s, generation) {
      var counted := !noContent && !c.okIsEndOfStream;
      var delivered := s.connection.value.cursorAdvanced;
      var immediate := !counted && (c.reopen == Immediate || (c.reopen == ImmediateAfterFrame && delivered));
      var discarded := MaybeDiscard(c, s, noContent, reaction);
      DiscardIsHonest(c, s, noContent, reaction);
      FailedIsHonest(c, discarded.state, generation, None, !counted, immediate, now);
    }
  }

  lemma OverflowIsHonest(c: Config, s: Client, generation: nat, now: real)
    requires Honest(s)
    ensures Honest(Overflow(c, s, generation, now).state)
  {
    ReopenIsHonest(c, s, generation);
    FailedIsHonest(c, s, generation, None, false, false, now);
  }

  lemma ProgressIsHonest(c: Config, s: Client, a: Audit, generation: nat, text: Text, now: real, reactions: seq<Reaction>)
    requires Good(c, s, a) && Honest(s)
    ensures Honest(Progress(c, s, generation, text, now, reactions).state)
  {
    if Current(s, generation) {
      var parser, suffix := s.connection.value.parser, Suffix(s.offset, text);
      var received, outputs := Received(s, text), Parse(parser, suffix).outputs;
      ParseIsLed(parser, suffix);
      ReceivedIsGood(c, s, a, text);
      CallbacksAreHonest(c, generation, received, a, outputs, reactions);
      OverflowIsHonest(c, Callbacks(c, generation, received, outputs, reactions).state, generation, now);
    }
  }

  lemma PollIsHonest(c: Config, s: Client, reaction: Reaction)
    requires Honest(s)
    ensures Honest(Poll(c, s, reaction).state)
  {
    StopIsHonest(s);
    ReactIsHonest(c, s, reaction);
  }

  // ----- Turns and runs -----

  lemma ProgressTurnIsHonest(c: Config, s: Client, a: Audit, input: Input)
    requires Good(c, s, a) && Honest(s) && input.ProgressEvent?
    ensures Honest(Step(c, s, input).state)
  {
    ProgressIsHonest(c, s, a, input.generation, input.text, input.now, input.reactions);
  }

  lemma CloseTurnIsHonest(c: Config, s: Client, input: Input)
    requires Honest(s) && (input.ResponseEvent? || input.CompleteEvent?)
    ensures Honest(Step(c, s, input).state)
  {
    var noContent := input.ResponseEvent? && input.noContent;
    ServerClosedIsHonest(c, s, input.generation, noContent, input.now, input.reaction);
  }

  lemma FailTurnIsHonest(c: Config, s: Client, input: Input)
    requires Honest(s) && (input.ErrorEvent? || input.StaleTimeout?)
    ensures Honest(Step(c, s, input).state)
  {
    var error := if input.ErrorEvent? then Some(input.error) else None;
    FailedIsHonest(c, s, input.generation, error, false, false, input.now);
  }

  lemma OwnTurnIsHonest(c: Config, s: Client, input: Input)
    requires Honest(s) && !FromConnection(input) && !input.TenantBecomes?
    ensures Honest(Step(c, s, input).state)
  {
    match input
    case CallStart => StartIsHonest(c, s);
    case RetryTimeout => OpenIsHonest(c, s.(retryTimer := None));
    case PollTick(reaction) => PollIsHonest(c, s, reaction);
    case _ => StopIsHonest(s);
  }

  lemma TenantTurnIsHonestIff(c: Config, s: Client, input: Input)
    requires Inv(c, s) && Honest(s) && input.TenantBecomes?
    ensures Honest(Step(c, s, input).state) <==> !Breaks(c, s, input)
  {
    TenantIsHonestIff(c, s, input.next, input.reaction);
  }

  /** The exact condition: an honest client stays honest unless this turn is such a tenant change. */
  lemma StepIsHonestIff(c: Config, s: Client, a: Audit, input: Input)
    requires Good(c, s, a) && Honest(s)
    ensures Honest(Step(c, s, input).state) <==> !Breaks(c, s, input)
  {
    if input.TenantBecomes? {
      TenantTurnIsHonestIff(c, s, input);
    } else if input.ProgressEvent? {
      ProgressTurnIsHonest(c, s, a, input);
    } else if input.ResponseEvent? || input.CompleteEvent? {
      CloseTurnIsHonest(c, s, input);
    } else if input.ErrorEvent? || input.StaleTimeout? {
      FailTurnIsHonest(c, s, input);
    } else if input.AgeTimeout? {
      ReopenIsHonest(c, s, input.generation);
    } else {
      OwnTurnIsHonest(c, s, input);
    }
  }

  /** The client after the first `n` turns of a run. */
  function Reached(c: Config, start: Client, inputs: seq<Input>, n: nat): Client
    requires n <= |inputs|
  {
    RunClient(c, start, inputs[..n]).state
  }

  lemma ReachedNext(c: Config, start: Client, inputs: seq<Input>, n: nat)
    requires n < |inputs|
    ensures Reached(c, start, inputs, n + 1) == Step(c, Reached(c, start, inputs, n), inputs[n]).state
  {
    var step := (s: Client, input: Input) => Step(c, s, input);
    assert inputs[..n + 1] == inputs[..n] + [inputs[n]];
    RunAppend(step, start, inputs[..n], [inputs[n]]);
    RunOne(step, Reached(c, start, inputs, n), inputs[n]);
  }

  lemma NextIsHonestIff(c: Config, sessionActive: bool, tenantId: Option<Text>, inputs: seq<Input>, n: nat)
    requires n < |inputs| && Honest(Reached(c, Fresh(sessionActive, tenantId), inputs, n))
    ensures Honest(Reached(c, Fresh(sessionActive, tenantId), inputs, n + 1)) <==>
            !Breaks(c, Reached(c, Fresh(sessionActive, tenantId), inputs, n), inputs[n])
  {
    var start := Fresh(sessionActive, tenantId);
    RunIsGood(c, sessionActive, tenantId, inputs[..n]);
    StepIsHonestIff(c, Reached(c, start, inputs, n), Replay(NOTHING_SEEN, RunClient(c, start, inputs[..n]).outputs), inputs[n]);
    ReachedNext(c, start, inputs, n);
  }

  lemma {:induction false} HonestUntilBroken(c: Config, sessionActive: bool, tenantId: Option<Text>, inputs: seq<Input>, n: nat)
    requires n <= |inputs|
    requires forall i :: 0 <= i < n ==> !Breaks(c, Reached(c, Fresh(sessionActive, tenantId), inputs, i), inputs[i])
    ensures Honest(Reached(c, Fresh(sessionActive, tenantId), inputs, n))
  {
    if n > 0 {
      HonestUntilBroken(c, sessionActive, tenantId, inputs, n - 1);
      NextIsHonestIff(c, sessionActive, tenantId, inputs, n - 1);
    }
  }

  /** Over whole runs: the polling shown has its timer at every moment exactly when no turn is such a tenant change. */
  lemma AlwaysHonestIff(c: Config, sessionActive: bool, tenantId: Option<Text>, inputs: seq<Input>)
    ensures (forall n :: 0 <= n <= |inputs| ==> Honest(Reached(c, Fresh(sessionActive, tenantId), inputs, n))) <==>
            (forall n :: 0 <= n < |inputs| ==> !Breaks(c, Reached(c, Fresh(sessionActive, tenantId), inputs, n), inputs[n]))
  {
    var start := Fresh(sessionActive, tenantId);
    if forall n :: 0 <= n <= |inputs| ==> Honest(Reached(c, start, inputs, n)) {
      forall n | 0 <= n < |inputs|
        ensures !Breaks(c, Reached(c, start, inputs, n), inputs[n])
      {
        NextIsHonestIff(c, sessionActive, tenantId, inputs, n);
      }
    }
    if forall n :: 0 <= n < |inputs| ==> !Breaks(c, Reached(c, start, inputs, n), inputs[n]) {
      forall n | 0 <= n <= |inputs|
        ensures Honest(Reached(c, start, inputs, n))
      {
        HonestUntilBroken(c, sessionActive, tenantId, inputs, n);
      }
    }
  }

  /** A run that gets there: one failure enters polling, and the next tenant change leaves it shown without a timer. */
  lemma TenantChangeKeepsPollingShown(c: Config, tenant: Text, next: Text)
    requires c.firstLine && c.tenancy && c.failuresBeforePolling <= 1.0
    requires tenant != [] && next != [] && tenant != next
    ensures var inputs := [CallStart, ErrorEvent(1, OtherError, 0.0), TenantBecomes(Some(next), Nothing)];
            var s := RunClient(c, Fresh(true, Some(tenant)), inputs).state;
            s.status == Polling && !s.pollingTimer && Waits(s)
  {
    var start, failed := Fresh(true, Some(tenant)), ErrorEvent(1, OtherError, 0.0);
    var inputs := [CallStart, failed, TenantBecomes(Some(next), Nothing)];
    assert inputs[..2] == [CallStart, failed] && inputs[..3] == inputs;
    RunTwo((s: Client, input: Input) => Step(c, s, input), start, CallStart, failed);
    OneFailureEntersPolling(c, tenant);
    NextIsHonestIff(c, true, Some(tenant), inputs, 2);
    StatusTellsTheTruth(c, true, Some(tenant), inputs);
  }

  lemma OneFailureEntersPolling(c: Config, tenant: Text)
    requires c.firstLine && c.tenancy && c.failuresBeforePolling <= 1.0 && tenant != []
    ensures var s := Step(c, Start(c, Fresh(true, Some(tenant))).state, ErrorEvent(1, OtherError, 0.0)).state;
            && s.status == Polling && s.pollingTimer && s.subscribed && s.sessionActive
            && s.currentTenant == Some(tenant) && s.cursor == None
  {
    var first := Start(c, Fresh(true, Some(tenant))).state;
    assert first.generation == 1 && Current(first, 1);
    assert Recent([], 0.0, c.failureWindowMs) == [];
  }
}
