/**
 Consequences for whole runs of the event-stream client: one way forward, no life after `stop` or
 after a closed connection, the dedup window and the resync count read off the outputs, the retry
 delays, and the byte and parser state of a connection that is fed growing texts.
 */
module EventStreamTheorems {
  import opened Wrappers
  import opened Machines
  import opened Utf16
  import opened FrameParsing
  import opened EventStream
  import opened EventStreamRuns

  // ----- One way forward -----

  /** After every run: exactly one of connection and retry when there is work, nothing at all when stopped. */
  lemma NeverStuckNeverTwice(c: Config, sessionActive: bool, tenantId: Option<Text>, inputs: seq<Input>)
    ensures var s := RunClient(c, Fresh(sessionActive, tenantId), inputs).state;
            && (s.active && TenantOk(c, s) ==> (s.connection.Some? <==> s.retryTimer.None?))
            && (s.connection.Some? ==> s.staleTimer == Some(s.generation) && s.ageTimer == Some(s.generation))
            && (!s.active ==> s.connection.None? && s.retryTimer.None? && !s.pollingTimer
                              && s.staleTimer.None? && s.ageTimer.None? && !s.subscribed)
  {
    RunIsGood(c, sessionActive, tenantId, inputs);
  }

  /** Whichever timer is pending moves a client with a session on: a retry reconnects, a stale connection is left. */
  lemma PendingTimerMovesOn(c: Config, s: Client, now: real)
    requires Inv(c, s) && s.active && s.sessionActive && TenantOk(c, s)
    ensures s.retryTimer.Some? ==>
              var turn := Step(c, s, RetryTimeout);
              turn.state.connection.Some? && turn.outputs == [Connect(s.cursor)]
    ensures s.connection.Some? ==>
              var turn := Step(c, s, StaleTimeout(s.generation, now));
              && turn.state.active && turn.state.generation > s.generation
              && (turn.state.retryTimer.Some? || turn.state.connection.Some?)
  {
  }

  // ----- No life after stop -----

  /** A stopped client stays silent until it is started again. */
  lemma {:induction false} SilentWhenStopped(c: Config, s: Client, inputs: seq<Input>)
    requires Inv(c, s) && !s.active
    requires forall i :: 0 <= i < |inputs| ==> !inputs[i].CallStart?
    ensures RunClient(c, s, inputs).outputs == [] && !RunClient(c, s, inputs).state.active
    decreases |inputs|
  {
    if inputs != [] {
      var first := Step(c, s, inputs[0]);
      assert first.outputs == [] && !first.state.active && Inv(c, first.state);
      SilentWhenStopped(c, first.state, inputs[1..]);
    }
  }

  // ----- No life after a closed connection -----

  /** Generations never fall, and a connection that is gone or a client that stopped has raised the generation. */
  predicate Later(s: Client, t: Client) {
    t.generation > s.generation ||
    (t.generation == s.generation && (s.connection.Some? ==> t.connection.Some?) && (s.active ==> t.active))
  }

  lemma OpenLater(c: Config, s: Client)
    ensures Later(s, Open(c, s).state)
  {
  }

  lemma StartLater(c: Config, s: Client)
    ensures Later(s, Start(c, s).state)
  {
    OpenLater(c, Started(c, s));
  }

  lemma ReactLater(c: Config, s: Client, reaction: Reaction)
    ensures Later(s, React(c, s, reaction).state)
  {
    if reaction == CallsRestart {
      StartLater(c, Stop(s).state);
    }
  }

  lemma DeliverLater(c: Config, s: Client, id: Text, event: Text, data: Text, reaction: Reaction)
    ensures Later(s, Deliver(c, s, id, event, data, reaction).state)
  {
    if Acceptable(c, s, id, data) {
      ReactLater(c, Alive(Advance(s.(cursor := Some(id), seen := Window(s.seen + [id])))), reaction);
    }
  }

  lemma CallbackLater(c: Config, generation: nat, s: Client, output: Output, reaction: Reaction)
    ensures Later(s, Callback(c, generation, s, output, reaction).state)
  {
    if output.Frame? {
      DeliverLater(c, s, output.id, output.event, output.data, reaction);
    }
  }

  lemma LaterStill(s: Client, t: Client, u: Client)
    requires Later(s, t) && Later(t, u)
    ensures Later(s, u)
  {
  }

  lemma {:induction false} CallbacksLater(c: Config, generation: nat, s: Client, outputs: seq<Output>, reactions: seq<Reaction>)
    ensures Later(s, Callbacks(c, generation, s, outputs, reactions).state)
    decreases |outputs|
  {
    if outputs != [] {
      var reaction := if reactions == [] then Nothing else reactions[0];
      var rest := if reactions == [] then [] else reactions[1..];
      var first := Callback(c, generation, s, outputs[0], reaction).state;
      CallbackLater(c, generation, s, outputs[0], reaction);
      CallbacksLater(c, generation, first, outputs[1..], rest);
      LaterStill(s, first, Callbacks(c, generation, first, outputs[1..], rest).state);
    }
  }

  lemma ReopenLater(c: Config, s: Client, generation: nat)
    ensures Later(s, ReopenPlanned(c, s, generation).state)
  {
    OpenLater(c, CancelConnection(s).state);
  }

  lemma RecoverLater(c: Config, s: Client, error: Option<Failure>, freshCursor: bool, reopenNow: bool, now: real)
    ensures Recover(c, s, error, freshCursor, reopenNow, now).state.generation >= s.generation
  {
    var entered, turn := EnterStatus(c, s, error, now), Recover(c, s, error, freshCursor, reopenNow, now);
    OpenLater(c, entered);
    EnterSameGeneration(c, s, error, now);
    assert turn == Open(c, entered) || turn.state.generation == entered.generation;
  }

  lemma EnterSameGeneration(c: Config, s: Client, error: Option<Failure>, now: real)
    ensures EnterStatus(c, s, error, now).generation == s.generation
  {
  }

  lemma LossLater(c: Config, s: Client, error: Option<Failure>, freshCursor: bool, reopenNow: bool, now: real)
    ensures AfterLoss(c, s, error, freshCursor, reopenNow, now).state.generation >= s.generation
  {
    RecoverLater(c, if freshCursor then s else CountFailure(c, s, now), error, freshCursor, reopenNow, now);
  }

  lemma FailedLater(c: Config, s: Client, generation: nat, error: Option<Failure>, freshCursor: bool, reopenNow: bool, now: real)
    ensures Later(s, Failed(c, s, generation, error, freshCursor, reopenNow, now).state)
    ensures Current(s, generation) ==> Failed(c, s, generation, error, freshCursor, reopenNow, now).state.generation > s.generation
  {
    LossLater(c, CancelConnection(s).state, error, freshCursor, reopenNow, now);
  }

  lemma DiscardLater(c: Config, s: Client, noContent: bool, reaction: Reaction)
    ensures Later(s, Discard(c, s, noContent, reaction).state)
  {
    ReactLater(c, s.(cursor := None, seen := []), reaction);
  }

  lemma ServerClosedLater(c: Config, s: Client, generation: nat, noContent: bool, now: real, reaction: Reaction)
    ensures Later(s, ServerClosed(c, s, generation, noContent, now, reaction).state)
  {
    if Current(s, generation) {
      var counted := !noContent && !c.okIsEndOfStream;
      var immediate := !counted && (c.reopen == Immediate || (c.reopen == ImmediateAfterFrame && s.connection.value.cursorAdvanced));
      var discarded := MaybeDiscard(c, s, noContent, reaction);
      DiscardLater(c, s, noContent, reaction);
      FailedLater(c, discarded.state, generation, None, !counted, immediate, now);
    }
  }

  lemma ProgressLater(c: Config, s: Client, generation: nat, text: Text, now: real, reactions: seq<Reaction>)
    ensures Later(s, Progress(c, s, generation, text, now, reactions).state)
  {
    if Current(s, generation) {
      var outputs := Parse(s.connection.value.parser, Suffix(s.offset, text)).outputs;
      var fed := Callbacks(c, generation, Received(s, text), outputs, reactions).state;
      CallbacksLater(c, generation, Received(s, text), outputs, reactions);
      ReopenLater(c, fed, generation);
      FailedLater(c, fed, generation, None, false, false, now);
    }
  }

  lemma TenantLater(c: Config, s: Client, next: Option<Text>, reaction: Reaction)
    ensures Later(s, ChangeTenant(c, s, next, reaction).state)
  {
    if s.subscribed && next != s.currentTenant {
      var quiet := ResetFor(s, next);
      ReactLater(c, quiet, reaction);
      OpenLater(c, quiet);
      OpenLater(c, React(c, quiet, reaction).state);
    }
  }

  lemma ProgressTurnLater(c: Config, s: Client, input: Input)
    requires input.ProgressEvent?
    ensures Later(s, Step(c, s, input).state)
  {
    ProgressLater(c, s, input.generation, input.text, input.now, input.reactions);
  }

  lemma CloseTurnLater(c: Config, s: Client, input: Input)
    requires input.ResponseEvent? || input.CompleteEvent?
    ensures Later(s, Step(c, s, input).state)
  {
    var noContent := input.ResponseEvent? && input.noContent;
    ServerClosedLater(c, s, input.generation, noContent, input.now, input.reaction);
  }

  lemma FailTurnLater(c: Config, s: Client, input: Input)
    requires input.ErrorEvent? || input.StaleTimeout?
    ensures Later(s, Step(c, s, input).state)
  {
    var error := if input.ErrorEvent? then Some(input.error) else None;
    FailedLater(c, s, input.generation, error, false, false, input.now);
  }

  lemma TenantTurnLater(c: Config, s: Client, input: Input)
    requires input.TenantBecomes?
    ensures Later(s, Step(c, s, input).state)
  {
    TenantLater(c, s, input.next, input.reaction);
  }

  lemma OpeningTurnLater(c: Config, s: Client, input: Input)
    requires input.CallStart? || input.RetryTimeout?
    ensures Later(s, Step(c, s, input).state)
  {
    StartLater(c, s);
    OpenLater(c, s.(retryTimer := None));
  }

  lemma OwnTurnLater(c: Config, s: Client, input: Input)
    requires input.CallStop? || input.SessionBecomes? || input.SessionEffect? || input.PollTick?
    ensures Later(s, Step(c, s, input).state)
  {
    if input.PollTick? {
      ReactLater(c, s, input.reaction);
    }
  }

  lemma StepLater(c: Config, s: Client, input: Input)
    ensures Later(s, Step(c, s, input).state)
  {
    if input.ProgressEvent? {
      ProgressTurnLater(c, s, input);
    } else if input.ResponseEvent? || input.CompleteEvent? {
      CloseTurnLater(c, s, input);
    } else if input.ErrorEvent? || input.StaleTimeout? {
      FailTurnLater(c, s, input);
    } else if input.AgeTimeout? {
      ReopenLater(c, s, input.generation);
    } else if input.TenantBecomes? {
      TenantTurnLater(c, s, input);
    } else if input.CallStart? || input.RetryTimeout? {
      OpeningTurnLater(c, s, input);
    } else {
      OwnTurnLater(c, s, input);
    }
  }

  lemma {:induction false} RunLater(c: Config, s: Client, inputs: seq<Input>)
    ensures RunClient(c, s, inputs).state.generation >= s.generation
    decreases |inputs|
  {
    if inputs != [] {
      StepLater(c, s, inputs[0]);
      RunLater(c, Step(c, s, inputs[0]).state, inputs[1..]);
    }
  }

  /** The connection, stale and age callbacks that carry `generation`. */
  predicate Tagged(input: Input, generation: nat) {
    match input
    case ProgressEvent(g, _, _, _) => g == generation
    case ResponseEvent(g, _, _, _) => g == generation
    case CompleteEvent(g, _, _) => g == generation
    case ErrorEvent(g, _, _) => g == generation
    case StaleTimeout(g, _) => g == generation
    case AgeTimeout(g) => g == generation
    case _ => false
  }

  /** Once a connection is gone its callbacks change nothing, however long the client goes on. */
  lemma ClosedConnectionIsIgnored(c: Config, s: Client, input: Input, inputs: seq<Input>, late: Input)
    requires s.connection.Some? && Tagged(late, s.generation)
    requires var t := Step(c, s, input).state; t.connection.None? || t.generation != s.generation
    ensures var t := RunClient(c, Step(c, s, input).state, inputs).state; Step(c, t, late) == Stepped(t, [])
  {
    StepLater(c, s, input);
    RunLater(c, Step(c, s, input).state, inputs);
  }

  // ----- Reading the outputs -----

  /** Equal ids are more than a window apart. */
  predicate Spaced(ids: seq<Text>) {
    forall i, j :: 0 <= i < j < |ids| && ids[i] == ids[j] ==> j - i > DEDUP_WINDOW
  }

  lemma SpacedSnoc(ids: seq<Text>, id: Text)
    requires Spaced(ids) && id !in Remembered(ids)
    ensures Spaced(ids + [id])
  {
    var all, n := ids + [id], |ids|;
    forall i, j | 0 <= i < j < |all| && all[i] == all[j]
      ensures j - i > DEDUP_WINDOW
    {
      if j < n {
        assert ids[i] == ids[j];
      } else {
        var kept := Remembered(ids);
        assert forall k | n - |kept| <= k < n :: ids[k] == kept[k - (n - |kept|)];
        assert i < n - |kept|;
      }
    }
  }

  lemma {:induction false} OkFromTheStart(a: Audit, outputs: seq<Effect>)
    requires Replay(a, outputs).ok
    ensures a.ok
    decreases |outputs|
  {
    if outputs != [] {
      OkFromTheStart(Observe(a, outputs[0]), outputs[1..]);
    }
  }

  lemma {:induction false} ReplayStaysSpaced(a: Audit, outputs: seq<Effect>)
    requires Spaced(a.accepted) && Replay(a, outputs).ok
    ensures Spaced(Replay(a, outputs).accepted)
    decreases |outputs|
  {
    if outputs != [] {
      OkFromTheStart(Observe(a, outputs[0]), outputs[1..]);
      if outputs[0].Accepted? {
        SpacedSnoc(a.accepted, outputs[0].id);
      }
      ReplayStaysSpaced(Observe(a, outputs[0]), outputs[1..]);
    }
  }

  /** Between two discards an id is accepted again only after 1,024 other acceptances. */
  lemma ReacceptedOnlyAfterAWindow(c: Config, sessionActive: bool, tenantId: Option<Text>, inputs: seq<Input>)
    ensures var run := RunClient(c, Fresh(sessionActive, tenantId), inputs);
            var accepted := Replay(NOTHING_SEEN, run.outputs).accepted;
            Spaced(accepted) && run.state.seen == Remembered(accepted) && run.state.cursor == Newest(accepted)
  {
    var run := RunClient(c, Fresh(sessionActive, tenantId), inputs);
    RunIsGood(c, sessionActive, tenantId, inputs);
    ReplayStaysSpaced(NOTHING_SEEN, run.outputs);
  }

  function HeldDiscards(outputs: seq<Effect>): nat {
    if outputs == [] then 0 else (if outputs[0] == Cleared(true) then 1 else 0) + HeldDiscards(outputs[1..])
  }

  function Resyncs(outputs: seq<Effect>): nat {
    if outputs == [] then 0 else (if outputs[0].Resync? then 1 else 0) + Resyncs(outputs[1..])
  }

  function Owed(a: Audit): nat {
    if a.owing then 1 else 0
  }

  lemma {:induction false} ResyncsPayDiscards(a: Audit, outputs: seq<Effect>)
    requires Replay(a, outputs).ok
    ensures Owed(a) + HeldDiscards(outputs) == Resyncs(outputs) + Owed(Replay(a, outputs))
    decreases |outputs|
  {
    if outputs != [] {
      OkFromTheStart(Observe(a, outputs[0]), outputs[1..]);
      ResyncsPayDiscards(Observe(a, outputs[0]), outputs[1..]);
    }
  }

  /**
   At every connect of every run: the previous connection is closed, each discarded cursor has been
   announced exactly once, and the cursor sent is the newest id accepted since the last discard.
   */
  lemma EveryConnect(c: Config, sessionActive: bool, tenantId: Option<Text>, inputs: seq<Input>, i: nat)
    requires var outputs := RunClient(c, Fresh(sessionActive, tenantId), inputs).outputs;
             i < |outputs| && outputs[i].Connect?
    ensures var outputs := RunClient(c, Fresh(sessionActive, tenantId), inputs).outputs;
            var before := Replay(NOTHING_SEEN, outputs[..i]);
            && !before.connected
            && HeldDiscards(outputs[..i]) == Resyncs(outputs[..i])
            && outputs[i].lastEventId == Newest(before.accepted)
  {
    var outputs := RunClient(c, Fresh(sessionActive, tenantId), inputs).outputs;
    var before := Replay(NOTHING_SEEN, outputs[..i]);
    RunIsGood(c, sessionActive, tenantId, inputs);
    assert outputs == outputs[..i] + outputs[i..];
    ReplayAppend(NOTHING_SEEN, outputs[..i], outputs[i..]);
    OkFromTheStart(Observe(before, outputs[i]), outputs[i..][1..]);
    ResyncsPayDiscards(NOTHING_SEEN, outputs[..i]);
  }

  // ----- Failures and status -----

  /** A counted time is kept when the newest counted one is no more than the window after it, or is it. */
  predicate Kept(c: Config, counted: seq<real>, i: nat)
    requires i < |counted|
  {
    i == |counted| - 1 || counted[|counted| - 1] - counted[i] <= c.failureWindowMs
  }

  /**
   After every run: the failures remembered are none exactly when none was counted since the last live
   activity or tenant change, never more than were counted, and, when the clock did not go back, exactly
   the sliding window over the counted times.
   */
  lemma FailuresAreTheWindow(c: Config, sessionActive: bool, tenantId: Option<Text>, inputs: seq<Input>)
    ensures var run := RunClient(c, Fresh(sessionActive, tenantId), inputs);
            var counted := Replay(NOTHING_SEEN, run.outputs).counted;
            && run.state.consecutiveFailures == |counted|
            && |run.state.failures| <= run.state.consecutiveFailures
            && (run.state.failures == [] <==> run.state.consecutiveFailures == 0)
            && (Ascending(counted) ==>
                  (forall time :: time in run.state.failures <==>
                     exists i :: 0 <= i < |counted| && Kept(c, counted, i) && counted[i] == time) &&
                  run.state.failures == InWindow(c, counted))
  {
    RunIsGood(c, sessionActive, tenantId, inputs);
    var counted := Replay(NOTHING_SEEN, RunClient(c, Fresh(sessionActive, tenantId), inputs).outputs).counted;
    forall time ensures time in InWindow(c, counted) <==>
                        exists i :: 0 <= i < |counted| && Kept(c, counted, i) && counted[i] == time {
      InWindowKeeps(c, counted, time);
    }
  }

  lemma {:induction false} RecentIn(x: seq<real>, now: real, window: real, time: real)
    ensures time in Recent(x, now, window) <==> time in x && now - time <= window
    decreases |x|
  {
    if x != [] {
      RecentIn(x[1..], now, window, time);
      assert x == [x[0]] + x[1..];
    }
  }

  lemma InWindowKeeps(c: Config, counted: seq<real>, time: real)
    ensures time in InWindow(c, counted) <==>
            exists i :: 0 <= i < |counted| && Kept(c, counted, i) && counted[i] == time
  {
    if counted != [] {
      var last := |counted| - 1;
      RecentIn(counted[..last], counted[last], c.failureWindowMs, time);
      if time in counted[..last] && counted[last] - time <= c.failureWindowMs {
        var i :| 0 <= i < last && counted[..last][i] == time;
        assert Kept(c, counted, i);
      }
      if i :| 0 <= i < |counted| && Kept(c, counted, i) && counted[i] == time {
        assert i < last ==> counted[..last][i] == time;
      }
      assert Kept(c, counted, last);
    }
  }

  // ----- Retry delays -----

  lemma {:induction false} PowerGrows(m: nat, n: nat)
    requires m <= n
    ensures Power2(m) <= Power2(n)
    decreases n
  {
    if m < n {
      PowerGrows(m, n - 1);
    }
  }

  function Doublings(consecutiveFailures: nat): nat {
    if consecutiveFailures == 0 then 0 else if consecutiveFailures > 31 then 30 else consecutiveFailures - 1
  }

  lemma ScaleKeepsOrder(x: real, a: real, b: real)
    requires x >= 0.0 && a <= b
    ensures x * a <= x * b
  {
    assert x * (b - a) >= 0.0;
  }

  /** Exponential backoff never shrinks as failures add up, and never exceeds the cap. */
  lemma BackoffGrowsToTheCap(c: Config, m: nat, n: nat)
    requires c.initialMs >= 0.0 && c.retryMode == Exponential && m <= n
    ensures BackoffMs(c, m) <= BackoffMs(c, n) <= c.maxMs
    ensures BackoffMs(c, n) >= Min(c.initialMs, c.maxMs)
  {
    PowerGrows(Doublings(m), Doublings(n));
    ScaleKeepsOrder(c.initialMs, Power2(Doublings(m)), Power2(Doublings(n)));
    ScaleKeepsOrder(c.initialMs, 1.0, Power2(Doublings(n)));
  }

  // ----- What a connection has received -----

  /** A text without a trailing unpaired high surrogate. */
  function Settled(text: Text): Text {
    if EndsHigh(text) then text[..|text| - 1] else text
  }

  /** The connection has been fed exactly `text`, however it was cut. */
  predicate HasReceived(s: Client, text: Text) {
    && s.connection.Some?
    && s.offset == |text|
    && s.connection.value.parser == Parse(START, text).state
    && s.receivedBytes == Utf8Length(Settled(text))
    && s.pendingHighSurrogate == text[|Settled(text)|..]
  }

  lemma OpenedHasReceivedNothing(c: Config, s: Client)
    ensures HasReceived(Connected(c, s), [])
  {
  }

  /** The account of a text: the bytes of its settled part, and the rest. */
  function AccountOf(text: Text): Account {
    Account(Utf8Length(Settled(text)), text[|Settled(text)|..])
  }

  lemma CountToHigh(settled: Text, complete: Text)
    requires EndsHigh(settled) ==> complete != [] && !IsLow(complete[0])
    requires EndsHigh(complete)
    ensures AccountOf(settled + complete) ==
            Account(Utf8Length(settled) + Utf8Length(complete[..|complete| - 1]), complete[|complete| - 1..])
  {
    var all, front := settled + complete, complete[..|complete| - 1];
    Utf8LengthAppend(settled, front);
    assert EndsHigh(all);
    assert Settled(all) == settled + front;
    assert all[|Settled(all)|..] == complete[|complete| - 1..];
  }

  lemma CountToOther(settled: Text, complete: Text)
    requires EndsHigh(settled) ==> complete != [] && !IsLow(complete[0])
    requires !EndsHigh(complete)
    ensures AccountOf(settled + complete) == Account(Utf8Length(settled) + Utf8Length(complete), [])
  {
    var all := settled + complete;
    Utf8LengthAppend(settled, complete);
    NotHighAppend(settled, complete);
    assert Settled(all) == all;
    assert all[|all|..] == [];
  }

  lemma NotHighAppend(settled: Text, complete: Text)
    requires complete == [] ==> !EndsHigh(settled)
    requires !EndsHigh(complete)
    ensures !EndsHigh(settled + complete)
  {
    assert complete == [] ==> settled + complete == settled;
  }

  lemma SettledRest(text: Text)
    ensures text == Settled(text) + AccountOf(text).pendingHigh
    ensures EndsHigh(Settled(text)) ==> EndsHigh(AccountOf(text).pendingHigh)
  {
  }

  /** Counting one more suffix, from the account of what came before. */
  lemma CountContinues(text: Text, suffix: Text)
    ensures Count(AccountOf(text), suffix) == AccountOf(text + suffix)
  {
    var settled := Settled(text);
    var complete := AccountOf(text).pendingHigh + suffix;
    SettledRest(text);
    assert text + suffix == settled + complete;
    if EndsHigh(complete) {
      CountToHigh(settled, complete);
    } else {
      CountToOther(settled, complete);
    }
  }

  /** A progress event that continues the text is counted and parsed as one longer text. */
  lemma ReceivedContinues(s: Client, text: Text, longer: Text)
    requires HasReceived(s, text) && text <= longer
    ensures HasReceived(Received(s, longer), longer)
  {
    var suffix := longer[|text|..];
    assert longer == text + suffix;
    CountContinues(text, suffix);
    ParseAppend(START, text, suffix);
  }

  /** Callbacks leave the receipt alone while the connection lasts. */
  lemma {:induction false} CallbacksKeepReceipt(c: Config, generation: nat, s: Client, outputs: seq<Output>, reactions: seq<Reaction>, text: Text)
    requires HasReceived(s, text) && Current(s, generation)
    ensures var t := Callbacks(c, generation, s, outputs, reactions).state;
            Current(t, generation) ==> HasReceived(t, text)
    decreases |outputs|
  {
    if outputs != [] {
      var reaction := if reactions == [] then Nothing else reactions[0];
      var rest := if reactions == [] then [] else reactions[1..];
      var first := Callback(c, generation, s, outputs[0], reaction).state;
      CallbackKeepsReceipt(c, generation, s, outputs[0], reaction, text);
      if Current(first, generation) {
        CallbacksKeepReceipt(c, generation, first, outputs[1..], rest, text);
      } else {
        CallbacksIgnored(c, generation, first, outputs[1..], rest);
      }
    }
  }

  lemma DeliverKeepsReceipt(c: Config, s: Client, id: Text, event: Text, data: Text, reaction: Reaction, text: Text)
    requires HasReceived(s, text)
    ensures var t := Deliver(c, s, id, event, data, reaction).state;
            t.generation == s.generation ==> HasReceived(t, text)
  {
    if Acceptable(c, s, id, data) {
      ReactRaisesGeneration(c, Alive(Advance(s.(cursor := Some(id), seen := Window(s.seen + [id])))), reaction);
    }
  }

  lemma CallbackKeepsReceipt(c: Config, generation: nat, s: Client, output: Output, reaction: Reaction, text: Text)
    requires HasReceived(s, text) && Current(s, generation)
    ensures var t := Callback(c, generation, s, output, reaction).state;
            Current(t, generation) ==> HasReceived(t, text)
  {
    if output.Frame? {
      DeliverKeepsReceipt(c, s, output.id, output.event, output.data, reaction, text);
    }
  }

  lemma {:induction false} CallbacksIgnored(c: Config, generation: nat, s: Client, outputs: seq<Output>, reactions: seq<Reaction>)
    requires !Current(s, generation)
    ensures Callbacks(c, generation, s, outputs, reactions) == Stepped(s, [])
    decreases |outputs|
  {
    if outputs != [] {
      CallbacksIgnored(c, generation, s, outputs[1..], if reactions == [] then [] else reactions[1..]);
    }
  }

  /** Bytes, pending surrogate and parser of a lasting connection depend only on the text, not on its cuts. */
  lemma ProgressAccounts(c: Config, s: Client, text: Text, longer: Text, now: real, reactions: seq<Reaction>)
    requires Current(s, s.generation) && HasReceived(s, text) && text <= longer
    ensures var t := Progress(c, s, s.generation, longer, now, reactions).state;
            t.generation == s.generation && t.connection.Some? && t.active ==> HasReceived(t, longer)
  {
    var g := s.generation;
    var received := Received(s, longer);
    var outputs := Parse(s.connection.value.parser, Suffix(s.offset, longer)).outputs;
    var fed := Callbacks(c, g, received, outputs, reactions).state;
    ReceivedContinues(s, text, longer);
    CallbacksKeepReceipt(c, g, received, outputs, reactions, longer);
    CallbacksLater(c, g, received, outputs, reactions);
    FailedLater(c, fed, g, None, false, false, now);
    OpenLater(c, CancelConnection(fed).state);
  }

  /** A connection that has just been opened has received nothing. */
  lemma OpenedAccounts(c: Config, s: Client)
    requires s.active && s.sessionActive && TenantOk(c, s)
    ensures var t := Open(c, s).state; Current(t, t.generation) && HasReceived(t, [])
  {
    OpenedHasReceivedNothing(c, CancelConnection(s).state);
  }

  /** The text received after a turn: a progress event of this connection brings a longer one. */
  function TextAfter(input: Input, generation: nat, text: Text): Text {
    if input.ProgressEvent? && input.generation == generation then input.text else text
  }

  function TextAfterAll(inputs: seq<Input>, generation: nat, text: Text): Text
    decreases |inputs|
  {
    if inputs == [] then text else TextAfterAll(inputs[1..], generation, TextAfter(inputs[0], generation, text))
  }

  /** The transport of one connection reports growing texts. */
  predicate TextsGrow(inputs: seq<Input>, generation: nat, text: Text)
    decreases |inputs|
  {
    inputs != [] ==>
      text <= TextAfter(inputs[0], generation, text) &&
      TextsGrow(inputs[1..], generation, TextAfter(inputs[0], generation, text))
  }

  lemma FailureEndsReceipt(c: Config, s: Client, input: Input)
    requires Current(s, s.generation) && (input.ErrorEvent? || input.StaleTimeout?)
    ensures var t := Step(c, s, input).state; t.generation > s.generation || t == s
  {
    var error := if input.ErrorEvent? then Some(input.error) else None;
    FailedLater(c, s, input.generation, error, false, false, input.now);
  }

  lemma CloseEndsReceipt(c: Config, s: Client, input: Input)
    requires Current(s, s.generation) && (input.ResponseEvent? || input.CompleteEvent?)
    ensures var t := Step(c, s, input).state; t.generation > s.generation || t == s
  {
    var noContent := input.ResponseEvent? && input.noContent;
    ClosedRaisesGeneration(c, s, input.generation, noContent, input.now, input.reaction);
  }

  lemma AgeEndsReceipt(c: Config, s: Client, input: Input)
    requires Current(s, s.generation) && input.AgeTimeout?
    ensures var t := Step(c, s, input).state; t.generation > s.generation || t == s
  {
    OpenLater(c, CancelConnection(s).state);
  }

  /** A callback other than the connection's own progress ends the connection or changes nothing. */
  lemma OtherCallbackEndsReceipt(c: Config, s: Client, input: Input)
    requires Current(s, s.generation)
    requires FromConnection(input) && (input.ProgressEvent? ==> input.generation != s.generation)
    ensures var t := Step(c, s, input).state; t.generation > s.generation || t == s
  {
    if input.ErrorEvent? || input.StaleTimeout? {
      FailureEndsReceipt(c, s, input);
    } else if input.ResponseEvent? || input.CompleteEvent? {
      CloseEndsReceipt(c, s, input);
    } else if input.AgeTimeout? {
      AgeEndsReceipt(c, s, input);
    }
  }

  /** Any other turn leaves the receipt alone while the connection lasts. */
  lemma OthersKeepReceipt(c: Config, s: Client, input: Input, text: Text)
    requires Current(s, s.generation) && HasReceived(s, text)
    requires input.ProgressEvent? ==> input.generation != s.generation
    ensures var t := Step(c, s, input).state;
            t.generation == s.generation && t.connection.Some? && t.active ==> HasReceived(t, text)
  {
    if FromConnection(input) {
      OtherCallbackEndsReceipt(c, s, input);
    } else {
      match input
      case TenantBecomes(next, reaction) => TenantRaisesGeneration(c, s, next, reaction);
      case PollTick(reaction) => ReactRaisesGeneration(c, s, reaction);
      case _ =>
    }
  }

  lemma ProgressTurnAccounts(c: Config, s: Client, input: Input, text: Text)
    requires Current(s, s.generation) && HasReceived(s, text)
    requires input.ProgressEvent? && input.generation == s.generation && text <= input.text
    ensures var t := Step(c, s, input).state;
            t.generation == s.generation && t.connection.Some? && t.active ==> HasReceived(t, input.text)
  {
    ProgressAccounts(c, s, text, input.text, input.now, input.reactions);
  }

  lemma StepAccounts(c: Config, s: Client, input: Input, text: Text)
    requires Current(s, s.generation) && HasReceived(s, text)
    requires text <= TextAfter(input, s.generation, text)
    ensures var t := Step(c, s, input).state;
            t.generation == s.generation && t.connection.Some? && t.active ==>
              HasReceived(t, TextAfter(input, s.generation, text))
  {
    if input.ProgressEvent? && input.generation == s.generation {
      ProgressTurnAccounts(c, s, input, text);
    } else {
      OthersKeepReceipt(c, s, input, text);
    }
  }

  lemma ClosedRaisesGeneration(c: Config, s: Client, generation: nat, noContent: bool, now: real, reaction: Reaction)
    ensures Current(s, generation) ==> ServerClosed(c, s, generation, noContent, now, reaction).state.generation > s.generation
    ensures !Current(s, generation) ==> ServerClosed(c, s, generation, noContent, now, reaction).state == s
  {
    if Current(s, generation) {
      var counted := !noContent && !c.okIsEndOfStream;
      var immediate := !counted && (c.reopen == Immediate || (c.reopen == ImmediateAfterFrame && s.connection.value.cursorAdvanced));
      var discarded := MaybeDiscard(c, s, noContent, reaction).state;
      MaybeDiscardRaises(c, s, noContent, reaction);
      FailedLater(c, discarded, generation, None, !counted, immediate, now);
    }
  }

  lemma MaybeDiscardRaises(c: Config, s: Client, noContent: bool, reaction: Reaction)
    ensures var t := MaybeDiscard(c, s, noContent, reaction).state;
            t.generation > s.generation || (t.generation == s.generation && t.connection == s.connection && t.active == s.active)
  {
    if noContent || c.closeDiscardsCursor {
      ReactRaisesGeneration(c, s.(cursor := None, seen := []), reaction);
    }
  }

  lemma TenantRaisesGeneration(c: Config, s: Client, next: Option<Text>, reaction: Reaction)
    ensures s.subscribed && next != s.currentTenant ==> ChangeTenant(c, s, next, reaction).state.generation > s.generation
  {
    if s.subscribed && next != s.currentTenant {
      var quiet := ResetFor(s, next);
      ReactLater(c, quiet, reaction);
      OpenLater(c, quiet);
      OpenLater(c, React(c, quiet, reaction).state);
    }
  }

  /**
   Over any run in which one connection reports growing texts, whatever else happens between them: as
   long as the connection lasts, its byte count, pending surrogate and parser are those of the whole text.
   */
  lemma {:induction false} ConnectionAccounts(c: Config, s: Client, inputs: seq<Input>, text: Text)
    requires Current(s, s.generation) && HasReceived(s, text)
    requires TextsGrow(inputs, s.generation, text)
    ensures var t := RunClient(c, s, inputs).state;
            t.generation == s.generation && t.connection.Some? && t.active ==>
              HasReceived(t, TextAfterAll(inputs, s.generation, text))
    decreases |inputs|
  {
    if inputs != [] {
      var first := Step(c, s, inputs[0]).state;
      var longer := TextAfter(inputs[0], s.generation, text);
      StepLater(c, s, inputs[0]);
      RunLater(c, first, inputs[1..]);
      if first.generation == s.generation {
        StepAccounts(c, s, inputs[0], text);
        ConnectionAccounts(c, first, inputs[1..], longer);
      }
    }
  }

  /**
   From the moment a connection is opened, as long as it lasts and its transport reports growing texts:
   bytes, pending surrogate and parser are those of the last text, whatever else happens meanwhile.
   */
  lemma OpenedConnectionAccounts(c: Config, s: Client, inputs: seq<Input>)
    requires s.active && s.sessionActive && TenantOk(c, s)
    requires TextsGrow(inputs, Open(c, s).state.generation, [])
    ensures var g := Open(c, s).state.generation;
            var t := RunClient(c, Open(c, s).state, inputs).state;
            t.generation == g && t.connection.Some? && t.active ==> HasReceived(t, TextAfterAll(inputs, g, []))
  {
    OpenedAccounts(c, s);
    ConnectionAccounts(c, Open(c, s).state, inputs, []);
  }
}
