/**
 What every run of the event-stream client keeps.  `Audit` replays the outputs of a run and checks
 them; `Good` ties the client's fields to that replay.  Every turn keeps `Good`, so it holds after
 every run from a fresh client, whatever the transport, the timers, the session, the tenant and the
 subscribers do.
 */
module EventStreamRuns {
  import opened Wrappers
  import opened Machines
  import opened Utf16
  import opened FrameParsing
  import opened EventStream

  // ----- Replaying the outputs -----

  /** `ok` turns false at the first output the protocol does not allow. */
  datatype Audit = Audit(accepted: seq<Text>, counted: seq<real>, connected: bool, owing: bool, ok: bool)

  const NOTHING_SEEN := Audit([], [], false, false, true)

  function Newest(ids: seq<Text>): Option<Text> {
    if ids == [] then None else Some(ids[|ids| - 1])
  }

  /** The newest 1,024 ids. */
  function Remembered(ids: seq<Text>): seq<Text> {
    if |ids| <= DEDUP_WINDOW then ids else ids[|ids| - DEDUP_WINDOW..]
  }

  function Observe(a: Audit, o: Effect): Audit {
    match o
    case Connect(id) =>
      a.(connected := true, ok := a.ok && !a.connected && !a.owing && id == Newest(a.accepted))
    case Disconnect => a.(connected := false, ok := a.ok && a.connected)
    case Accepted(id) =>
      a.(accepted := a.accepted + [id], ok := a.ok && a.connected && !a.owing && id !in Remembered(a.accepted))
    case Cleared(held) =>
      a.(accepted := [], owing := held, ok := a.ok && !a.owing && held == (a.accepted != []))
    case Resync(_) => a.(owing := false, ok := a.ok && a.owing)
    case Event(id, _, _) => a.(ok := a.ok && a.connected && Newest(a.accepted) == Some(id))
    case Tick => a
    case Counted(time) => a.(counted := a.counted + [time])
    case FailuresForgotten => a.(counted := [])
  }

  function Replay(a: Audit, outputs: seq<Effect>): Audit
    decreases |outputs|
  {
    if outputs == [] then a else Replay(Observe(a, outputs[0]), outputs[1..])
  }

  lemma {:induction false} ReplayAppend(a: Audit, x: seq<Effect>, y: seq<Effect>)
    ensures Replay(a, x + y) == Replay(Replay(a, x), y)
    decreases |x|
  {
    if x == [] {
      assert x + y == y;
    } else {
      assert (x + y)[1..] == x[1..] + y;
      ReplayAppend(Observe(a, x[0]), x[1..], y);
    }
  }

  lemma {:induction false} ReplayOne(a: Audit, o: Effect)
    ensures Replay(a, [o]) == Observe(a, o)
  {
    assert [o][1..] == [];
  }

  lemma {:induction false} ReplayTwo(a: Audit, o: Effect, p: Effect)
    ensures Replay(a, [o, p]) == Observe(Observe(a, o), p)
  {
    assert [o, p][1..] == [p];
    ReplayOne(Observe(a, o), p);
  }

  // ----- The failure window -----

  predicate Ascending(times: seq<real>) {
    forall i, j :: 0 <= i <= j < |times| ==> times[i] <= times[j]
  }

  /** The newest counted failure, after the earlier ones no older than the window when it happened. */
  function InWindow(c: Config, counted: seq<real>): seq<real> {
    if counted == [] then []
    else
      var last := |counted| - 1;
      Recent(counted[..last], counted[last], c.failureWindowMs) + [counted[last]]
  }

  lemma {:induction false} RecentAppend(x: seq<real>, y: seq<real>, now: real, window: real)
    ensures Recent(x + y, now, window) == Recent(x, now, window) + Recent(y, now, window)
    decreases |x|
  {
    if x == [] {
      assert x + y == y;
    } else {
      var head := if now - x[0] <= window then [x[0]] else [];
      assert (x + y)[1..] == x[1..] + y;
      assert Recent(x + y, now, window) == head + Recent(x[1..] + y, now, window);
      RecentAppend(x[1..], y, now, window);
      assert Recent(x, now, window) == head + Recent(x[1..], now, window);
    }
  }

  lemma {:induction false} RecentCons(time: real, rest: seq<real>, now: real, window: real)
    ensures Recent([time] + rest, now, window) == (if now - time <= window then [time] else []) + Recent(rest, now, window)
  {
    assert ([time] + rest)[1..] == rest;
  }

  /** Filtering at an earlier time loses nothing that a later filter keeps. */
  lemma {:induction false} RecentTwice(x: seq<real>, earlier: real, now: real, window: real)
    requires earlier <= now
    ensures Recent(Recent(x, earlier, window), now, window) == Recent(x, now, window)
    decreases |x|
  {
    if x != [] {
      RecentTwice(x[1..], earlier, now, window);
      var rest := Recent(x[1..], earlier, window);
      if earlier - x[0] <= window {
        RecentCons(x[0], rest, now, window);
      } else {
        assert Recent(x, earlier, window) == rest;
      }
    }
  }

  lemma {:induction false} RecentShorter(x: seq<real>, now: real, window: real)
    ensures |Recent(x, now, window)| <= |x|
    decreases |x|
  {
    if x != [] {
      RecentShorter(x[1..], now, window);
    }
  }

  /** What the client knows of its failures, against all the failures counted since the last reset. */
  predicate FailuresAgree(c: Config, s: Client, counted: seq<real>) {
    && s.consecutiveFailures == |counted|
    && |s.failures| <= |counted|
    && (s.failures == [] <==> counted == [])
    && (Ascending(counted) ==> s.failures == InWindow(c, counted))
  }

  /** Under a monotone clock the incremental filter is exactly the sliding window. */
  lemma CountKeepsWindow(c: Config, s: Client, counted: seq<real>, now: real)
    requires FailuresAgree(c, s, counted)
    ensures FailuresAgree(c, CountFailure(c, s, now), counted + [now])
  {
    RecentShorter(s.failures, now, c.failureWindowMs);
    if Ascending(counted + [now]) {
      AscendingPrefix(counted, now);
      SlideWindow(c, counted, now);
    }
  }

  lemma AscendingPrefix(counted: seq<real>, now: real)
    requires Ascending(counted + [now])
    ensures Ascending(counted) && (counted != [] ==> counted[|counted| - 1] <= now)
  {
    var all := counted + [now];
    forall i, j | 0 <= i <= j < |counted|
      ensures counted[i] <= counted[j]
    {
      assert all[i] <= all[j];
    }
    if counted != [] {
      assert all[|counted| - 1] <= all[|counted|];
    }
  }

  lemma SlideWindow(c: Config, counted: seq<real>, now: real)
    requires counted != [] ==> counted[|counted| - 1] <= now
    ensures Recent(InWindow(c, counted), now, c.failureWindowMs) + [now] == InWindow(c, counted + [now])
  {
    var w := c.failureWindowMs;
    assert (counted + [now])[..|counted|] == counted;
    if counted != [] {
      var last := |counted| - 1;
      var front, newest := counted[..last], counted[last];
      RecentAppend(Recent(front, newest, w), [newest], now, w);
      RecentTwice(front, newest, now, w);
      RecentAppend(front, [newest], now, w);
      assert counted == front + [newest];
    }
  }

  // ----- The dedup window -----

  /** One more accepted id moves the window by one. */
  lemma WindowIsRemembered(accepted: seq<Text>, id: Text)
    ensures Window(Remembered(accepted) + [id]) == Remembered(accepted + [id])
  {
  }

  predicate Distinct(ids: seq<Text>) {
    forall i, j :: 0 <= i < j < |ids| ==> ids[i] != ids[j]
  }

  // ----- The invariant -----

  predicate TenantOk(c: Config, s: Client) {
    !c.tenancy || Truthy(s.tenantId)
  }

  /** Connection and connection timers come and go together; nothing outlives `stop`. */
  predicate Lifecycle(c: Config, s: Client) {
    && (s.connection.Some? ==> s.active && TenantOk(c, s) && s.retryTimer == None)
    && s.staleTimer == (if s.connection.Some? then Some(s.generation) else None)
    && s.ageTimer == (if s.connection.Some? then Some(s.generation) else None)
    && (!s.active || !TenantOk(c, s) ==> s.retryTimer == None && !s.pollingTimer)
    && s.subscribed == (s.active && c.tenancy)
    && (s.subscribed ==> s.currentTenant == s.tenantId)
    && (s.connection.Some? && s.connection.value.held.Some? ==> c.firstLine)
  }

  /** An active client with a tenant has an open connection or a pending retry, and never both. */
  predicate OneWayForward(c: Config, s: Client) {
    s.active && TenantOk(c, s) ==> (s.connection.Some? <==> s.retryTimer == None)
  }

  /** A connection that holds its opening status until its first line. */
  predicate Waits(s: Client) {
    s.connection.Some? && s.connection.value.held.Some?
  }

  /** What the shown status promises, and the held one. */
  predicate StatusTrue(c: Config, s: Client) {
    && (s.status == Polling ==> s.pollingTimer || Waits(s))
    && (s.status == Live ==> s.connection.Some? && !s.pollingTimer && s.consecutiveFailures == 0)
    && (Waits(s) ==> s.connection.value.held.value == OpeningStatus(s))
  }

  predicate Inv(c: Config, s: Client) {
    Lifecycle(c, s) && OneWayForward(c, s) && StatusTrue(c, s)
  }

  /** The client's memory is what the outputs so far determine. */
  predicate Agrees(c: Config, s: Client, a: Audit) {
    && a.ok && !a.owing
    && a.connected == s.connection.Some?
    && s.seen == Remembered(a.accepted)
    && s.cursor == Newest(a.accepted)
    && Distinct(s.seen)
    && FailuresAgree(c, s, a.counted)
  }

  predicate Good(c: Config, s: Client, a: Audit) {
    Inv(c, s) && Agrees(c, s, a)
  }

  /** A turn from `s` that ends well. */
  predicate Ends(c: Config, a: Audit, turn: Turn) {
    Good(c, turn.state, Replay(a, turn.outputs))
  }

  lemma AfterReplays(a: Audit, outputs: seq<Effect>, turn: Turn)
    ensures Replay(a, After(outputs, turn).outputs) == Replay(Replay(a, outputs), turn.outputs)
  {
    ReplayAppend(a, outputs, turn.outputs);
  }

  // ----- stop, open, start -----

  lemma CancelAgrees(c: Config, s: Client, a: Audit)
    requires Agrees(c, s, a)
    ensures Agrees(c, CancelConnection(s).state, Replay(a, CancelConnection(s).outputs))
  {
    if s.connection.Some? {
      ReplayOne(a, Disconnect);
    }
  }

  lemma StopEnds(c: Config, s: Client, a: Audit)
    requires Agrees(c, s, a)
    ensures Ends(c, a, Stop(s))
  {
    CancelAgrees(c, s.(active := false), a);
  }

  /** A client between connections: nothing pending, ready to open or stop. */
  predicate Between(c: Config, s: Client) {
    Lifecycle(c, s) && s.retryTimer == None
  }

  /** The status that stays shown when a connection opens promises what it must. */
  predicate MayStay(c: Config, s: Client) {
    s.status == Live ==> !s.pollingTimer && s.consecutiveFailures == 0
  }

  lemma OpenEnds(c: Config, s: Client, a: Audit)
    requires Between(c, s) && Agrees(c, s, a) && (c.firstLine ==> MayStay(c, s))
    ensures Ends(c, a, Open(c, s))
  {
    if !s.active || !s.sessionActive {
      StopEnds(c, s, a);
    } else if c.tenancy && !Truthy(s.tenantId) {
    } else {
      CancelAgrees(c, s, a);
      ReplayAppend(a, CancelConnection(s).outputs, [Connect(s.cursor)]);
      ReplayOne(Replay(a, CancelConnection(s).outputs), Connect(s.cursor));
    }
  }

  lemma StartEnds(c: Config, s: Client, a: Audit)
    requires Good(c, s, a)
    ensures Ends(c, a, Start(c, s))
  {
    if !s.active && s.sessionActive && !(c.tenancy && !Truthy(s.tenantId)) {
      OpenEnds(c, Started(c, s), a);
    }
  }

  lemma ReactEnds(c: Config, s: Client, a: Audit, reaction: Reaction)
    requires Agrees(c, s, a)
    ensures reaction == Nothing || Ends(c, a, React(c, s, reaction))
    ensures Good(c, s, a) ==> Ends(c, a, React(c, s, reaction))
  {
    match reaction
    case Nothing =>
    case CallsStop => StopEnds(c, s, a);
    case CallsRestart =>
      var stopped := Stop(s);
      StopEnds(c, s, a);
      StartEnds(c, stopped.state, Replay(a, stopped.outputs));
      AfterReplays(a, stopped.outputs, Start(c, stopped.state));
  }

  // ----- Tenant changes -----

  lemma ReplayResetting(c: Config, s: Client, a: Audit)
    requires Agrees(c, s, a)
    ensures Replay(a, Resetting(s)) == Audit([], [], false, s.cursor.Some?, true)
  {
    var held := s.cursor.Some?;
    var tail: seq<Effect> := if s.connection.Some? then [Disconnect] else [];
    var second := Observe(Observe(a, Cleared(held)), FailuresForgotten);
    ReplayTwo(a, Cleared(held), FailuresForgotten);
    ReplayAppend(a, [Cleared(held), FailuresForgotten], tail);
    ReplayOne(second, Disconnect);
    assert second == Audit([], [], a.connected, held, true);
  }

  /** After a reset the client opens for a tenant and idles without one. */
  lemma SettleEnds(c: Config, s: Client, next: Option<Text>, a: Audit)
    requires Inv(c, s) && s.subscribed
    requires Agrees(c, ResetFor(s, next), a)
    ensures Ends(c, a, Settle(c, ResetFor(s, next), next))
  {
    OpenEnds(c, ResetFor(s, next), a);
  }

  /** Subscribers who hear of a reset end the turn with a good client, or leave it as it is. */
  lemma ToldEnds(c: Config, s: Client, next: Option<Text>, reaction: Reaction)
    requires Inv(c, s) && s.subscribed && s.cursor.Some?
    ensures var told := Told(c, ResetFor(s, next), true, reaction);
            var b := Replay(Audit([], [], false, true, true), told.outputs);
            if told.state.generation != ResetFor(s, next).generation then Good(c, told.state, b)
            else told.state == ResetFor(s, next) && b == NOTHING_SEEN
  {
    var quiet, a := ResetFor(s, next), Audit([], [], false, true, true);
    var reacted := React(c, quiet, reaction);
    ReplayOne(a, Resync(TenantChange));
    AfterReplays(a, [Resync(TenantChange)], reacted);
    ReactEnds(c, quiet, NOTHING_SEEN, reaction);
    ReactRaisesGeneration(c, quiet, reaction);
  }

  lemma TellEnds(c: Config, s: Client, next: Option<Text>, a: Audit, reaction: Reaction)
    requires Inv(c, s) && s.subscribed
    requires a == Audit([], [], false, s.cursor.Some?, true)
    ensures Ends(c, a, Tell(c, ResetFor(s, next), s.cursor.Some?, next, reaction))
  {
    var quiet := ResetFor(s, next);
    var told := Told(c, quiet, s.cursor.Some?, reaction);
    SettleEnds(c, s, next, NOTHING_SEEN);
    AfterReplays(a, told.outputs, Settle(c, quiet, next));
    AfterReplays(a, told.outputs, Stepped(told.state, []));
    if s.cursor.Some? {
      ToldEnds(c, s, next, reaction);
    }
  }

  lemma TenantEnds(c: Config, s: Client, a: Audit, next: Option<Text>, reaction: Reaction)
    requires Good(c, s, a)
    ensures Ends(c, a, ChangeTenant(c, s, next, reaction))
  {
    if s.subscribed && next != s.currentTenant {
      var b := Replay(a, Resetting(s));
      ReplayResetting(c, s, a);
      TellEnds(c, s, next, b, reaction);
      AfterReplays(a, Resetting(s), Tell(c, ResetFor(s, next), s.cursor.Some?, next, reaction));
    }
  }

  lemma ReactRaisesGeneration(c: Config, s: Client, reaction: Reaction)
    ensures if reaction == Nothing then React(c, s, reaction) == Stepped(s, [])
            else React(c, s, reaction).state.generation > s.generation
  {
  }

  // ----- Frames -----

  /** The client after an accepted frame, before its subscribers hear of it. */
  lemma TakenIsGood(c: Config, s: Client, a: Audit, id: Text, event: Text, data: Text)
    requires Good(c, s, a) && s.connection.Some? && !Waits(s) && Acceptable(c, s, id, data)
    ensures Good(c, Alive(Advance(s.(cursor := Some(id), seen := Window(s.seen + [id])))),
                 Observe(Observe(a, Accepted(id)), FailuresForgotten))
  {
    WindowIsRemembered(a.accepted, id);
    DistinctWindow(s.seen, id);
  }

  lemma DeliverEnds(c: Config, s: Client, a: Audit, id: Text, event: Text, data: Text, reaction: Reaction)
    requires Good(c, s, a) && s.connection.Some? && !Waits(s)
    ensures Ends(c, a, Deliver(c, s, id, event, data, reaction))
  {
    if Acceptable(c, s, id, data) {
      var taken := Alive(Advance(s.(cursor := Some(id), seen := Window(s.seen + [id]))));
      var b := Observe(Observe(a, Accepted(id)), FailuresForgotten);
      var told := After([Event(id, Name(c, event), data)], React(c, taken, reaction));
      ReplayTwo(a, Accepted(id), FailuresForgotten);
      TakenIsGood(c, s, a, id, event, data);
      if Wanted(c, event) {
        EmitEnds(c, taken, b, Event(id, Name(c, event), data), reaction);
        AfterReplays(a, [Accepted(id), FailuresForgotten], told);
        DeliverTells(c, s, id, event, data, reaction);
      }
    }
  }

  /** The outputs of a wanted frame, in two parts. */
  lemma DeliverTells(c: Config, s: Client, id: Text, event: Text, data: Text, reaction: Reaction)
    requires Acceptable(c, s, id, data) && Wanted(c, event)
    ensures var taken := Alive(Advance(s.(cursor := Some(id), seen := Window(s.seen + [id]))));
            var told := After([Event(id, Name(c, event), data)], React(c, taken, reaction));
            Deliver(c, s, id, event, data, reaction) == After([Accepted(id), FailuresForgotten], told)
  {
    var taken := Alive(Advance(s.(cursor := Some(id), seen := Window(s.seen + [id]))));
    var noted, news := [Accepted(id), FailuresForgotten], [Event(id, Name(c, event), data)];
    assert noted + news + React(c, taken, reaction).outputs == noted + (news + React(c, taken, reaction).outputs);
  }

  /** Emitting what the audit takes without a change, and the reaction to it. */
  lemma EmitEnds(c: Config, s: Client, a: Audit, news: Effect, reaction: Reaction)
    requires Good(c, s, a) && Observe(a, news) == a
    ensures Ends(c, a, After([news], React(c, s, reaction)))
  {
    ReplayOne(a, news);
    ReactEnds(c, s, a, reaction);
    AfterReplays(a, [news], React(c, s, reaction));
  }

  lemma DistinctWindow(seen: seq<Text>, id: Text)
    requires Distinct(seen) && id !in seen
    ensures Distinct(Window(seen + [id]))
  {
  }

  lemma CallbackEnds(c: Config, generation: nat, s: Client, a: Audit, output: Output, reaction: Reaction)
    requires Good(c, s, a)
    requires Current(s, generation) && Waits(s) ==> output == Activity
    ensures Ends(c, a, Callback(c, generation, s, output, reaction))
    ensures var t := Callback(c, generation, s, output, reaction).state; Current(t, generation) ==> !Waits(t)
  {
    if Current(s, generation) {
      match output
      case Activity =>
      case Comment => ReplayOne(a, FailuresForgotten);
      case Frame(id, event, data) =>
        DeliverEnds(c, s, a, id, event, data, reaction);
        DeliverKeepsHeld(c, s, id, event, data, reaction);
    }
  }

  lemma DeliverKeepsHeld(c: Config, s: Client, id: Text, event: Text, data: Text, reaction: Reaction)
    requires s.connection.Some? && !Waits(s)
    ensures var t := Deliver(c, s, id, event, data, reaction).state; t.generation == s.generation ==> !Waits(t)
  {
    if Acceptable(c, s, id, data) {
      ReactRaisesGeneration(c, Alive(Advance(s.(cursor := Some(id), seen := Window(s.seen + [id])))), reaction);
    }
  }

  /** The callbacks of a line begin with its activity. */
  predicate Led(outputs: seq<Output>) {
    outputs != [] ==> outputs[0] == Activity
  }

  lemma {:induction false} ParseIsLed(p: Parser, text: Text)
    ensures Led(Parse(p, text).outputs)
    decreases |text|
  {
    if text != [] {
      ParseIsLed(TakeUnit(p, text[0]).state, text[1..]);
    }
  }

  lemma {:induction false} CallbacksEnd(c: Config, generation: nat, s: Client, a: Audit, outputs: seq<Output>, reactions: seq<Reaction>)
    requires Good(c, s, a)
    requires Current(s, generation) && Waits(s) ==> Led(outputs)
    ensures Ends(c, a, Callbacks(c, generation, s, outputs, reactions))
    decreases |outputs|
  {
    if outputs != [] {
      var reaction := if reactions == [] then Nothing else reactions[0];
      var first := Callback(c, generation, s, outputs[0], reaction);
      CallbackEnds(c, generation, s, a, outputs[0], reaction);
      var rest := if reactions == [] then [] else reactions[1..];
      CallbacksEnd(c, generation, first.state, Replay(a, first.outputs), outputs[1..], rest);
      AfterReplays(a, first.outputs, Callbacks(c, generation, first.state, outputs[1..], rest));
    }
  }

  // ----- Closing and failing -----

  lemma ReopenEnds(c: Config, s: Client, a: Audit, generation: nat)
    requires Good(c, s, a)
    ensures Ends(c, a, ReopenPlanned(c, s, generation))
  {
    if Current(s, generation) {
      var cancelled := CancelConnection(s);
      CancelAgrees(c, s, a);
      OpenEnds(c, cancelled.state, Replay(a, cancelled.outputs));
      AfterReplays(a, cancelled.outputs, Open(c, cancelled.state));
    }
  }

  lemma RecoverEnds(c: Config, s: Client, a: Audit, error: Option<Failure>, freshCursor: bool, reopenNow: bool, now: real)
    requires Between(c, s) && s.active && TenantOk(c, s) && s.connection == None && Agrees(c, s, a)
    ensures Ends(c, a, Recover(c, s, error, freshCursor, reopenNow, now))
  {
    var entered := EnterStatus(c, s, error, now);
    EnterKeeps(c, s, a, error, now);
    OpenEnds(c, entered, a);
    forall delay: real
      ensures Good(c, entered.(retryTimer := Some(delay)), a)
    {
      WaitIsGood(c, entered, a, delay);
    }
  }

  lemma EnterKeeps(c: Config, s: Client, a: Audit, error: Option<Failure>, now: real)
    requires Between(c, s) && s.active && TenantOk(c, s) && s.connection == None && Agrees(c, s, a)
    ensures var entered := EnterStatus(c, s, error, now);
            && Between(c, entered) && entered.active && TenantOk(c, entered) && entered.connection == None
            && Agrees(c, entered, a) && StatusTrue(c, entered) && entered.status != Live
  {
  }

  lemma WaitIsGood(c: Config, s: Client, a: Audit, delay: real)
    requires Between(c, s) && s.active && TenantOk(c, s) && s.connection == None && Agrees(c, s, a) && StatusTrue(c, s)
    ensures Good(c, s.(retryTimer := Some(delay)), a)
  {
  }

  lemma FailedEnds(c: Config, s: Client, a: Audit, generation: nat, error: Option<Failure>, freshCursor: bool, reopenNow: bool, now: real)
    requires Good(c, s, a)
    ensures Ends(c, a, Failed(c, s, generation, error, freshCursor, reopenNow, now))
  {
    if Current(s, generation) {
      var cancelled := CancelConnection(s);
      var b := Replay(a, cancelled.outputs);
      CancelAgrees(c, s, a);
      LossEnds(c, cancelled.state, b, error, freshCursor, reopenNow, now);
      AfterReplays(a, cancelled.outputs, AfterLoss(c, cancelled.state, error, freshCursor, reopenNow, now));
    }
  }

  lemma LossEnds(c: Config, s: Client, a: Audit, error: Option<Failure>, freshCursor: bool, reopenNow: bool, now: real)
    requires Between(c, s) && s.active && TenantOk(c, s) && s.connection == None && Agrees(c, s, a)
    ensures Ends(c, a, AfterLoss(c, s, error, freshCursor, reopenNow, now))
  {
    if Refused(s, error) {
      StopEnds(c, Record(s, error, WasStopped, now), a);
    } else if freshCursor {
      RecoverEnds(c, s, a, error, freshCursor, reopenNow, now);
    } else {
      var counted, b := CountFailure(c, s, now), Observe(a, Counted(now));
      CountKeepsWindow(c, s, a.counted, now);
      ReplayOne(a, Counted(now));
      RecoverEnds(c, counted, b, error, freshCursor, reopenNow, now);
      AfterReplays(a, [Counted(now)], Recover(c, counted, error, freshCursor, reopenNow, now));
    }
  }

  lemma ClearedIsGood(c: Config, s: Client, a: Audit)
    requires Good(c, s, a)
    ensures Good(c, s.(cursor := None, seen := []), a.(accepted := []))
    ensures a.accepted != [] <==> s.cursor.Some?
  {
  }

  lemma DiscardEnds(c: Config, s: Client, a: Audit, noContent: bool, reaction: Reaction)
    requires Good(c, s, a)
    ensures Ends(c, a, Discard(c, s, noContent, reaction))
  {
    var cleared, b := s.(cursor := None, seen := []), a.(accepted := []);
    ClearedIsGood(c, s, a);
    if s.cursor.Some? {
      var resync := Resync(if noContent then NoContent else ServerClose);
      ReplayTwo(a, Cleared(true), resync);
      assert Observe(Observe(a, Cleared(true)), resync) == b;
      ReactEnds(c, cleared, b, reaction);
      AfterReplays(a, [Cleared(true), resync], React(c, cleared, reaction));
    } else {
      ReplayOne(a, Cleared(false));
      assert Observe(a, Cleared(false)) == b;
    }
  }

  lemma ServerClosedEnds(c: Config, s: Client, a: Audit, generation: nat, noContent: bool, now: real, reaction: Reaction)
    requires Good(c, s, a)
    ensures Ends(c, a, ServerClosed(c, s, generation, noContent, now, reaction))
  {
    if Current(s, generation) {
      var counted := !noContent && !c.okIsEndOfStream;
      var delivered := s.connection.value.cursorAdvanced;
      var immediate := !counted && (c.reopen == Immediate || (c.reopen == ImmediateAfterFrame && delivered));
      var discarded := MaybeDiscard(c, s, noContent, reaction);
      DiscardEnds(c, s, a, noContent, reaction);
      var b := Replay(a, discarded.outputs);
      FailedEnds(c, discarded.state, b, generation, None, !counted, immediate, now);
      AfterReplays(a, discarded.outputs, Failed(c, discarded.state, generation, None, !counted, immediate, now));
    }
  }

  /** Counting and parsing touch only the receipt. */
  lemma ReceivedIsGood(c: Config, s: Client, a: Audit, text: Text)
    requires Good(c, s, a) && s.connection.Some?
    ensures Good(c, Received(s, text), a) && Waits(Received(s, text)) == Waits(s)
  {
  }

  lemma OverflowEnds(c: Config, s: Client, a: Audit, generation: nat, now: real)
    requires Good(c, s, a)
    ensures Ends(c, a, Overflow(c, s, generation, now))
  {
    ReopenEnds(c, s, a, generation);
    FailedEnds(c, s, a, generation, None, false, false, now);
  }

  /** The callbacks of one progress event and the byte limit after them. */
  lemma DigestEnds(c: Config, s: Client, a: Audit, generation: nat, outputs: seq<Output>, now: real, reactions: seq<Reaction>)
    requires Good(c, s, a) && Led(outputs)
    ensures Ends(c, a, Digest(c, s, generation, outputs, now, reactions))
  {
    var fed := Callbacks(c, generation, s, outputs, reactions);
    CallbacksEnd(c, generation, s, a, outputs, reactions);
    OverflowEnds(c, fed.state, Replay(a, fed.outputs), generation, now);
    AfterReplays(a, fed.outputs, Overflow(c, fed.state, generation, now));
  }

  lemma ProgressEnds(c: Config, s: Client, a: Audit, generation: nat, text: Text, now: real, reactions: seq<Reaction>)
    requires Good(c, s, a)
    ensures Ends(c, a, Progress(c, s, generation, text, now, reactions))
  {
    if Current(s, generation) {
      var parser, suffix := s.connection.value.parser, Suffix(s.offset, text);
      ParseIsLed(parser, suffix);
      ReceivedIsGood(c, s, a, text);
      DigestEnds(c, Received(s, text), a, generation, Parse(parser, suffix).outputs, now, reactions);
    }
  }

  lemma PollEnds(c: Config, s: Client, a: Audit, reaction: Reaction)
    requires Good(c, s, a)
    ensures Ends(c, a, Poll(c, s, reaction))
  {
    StopEnds(c, s, a);
    EmitEnds(c, s, a, Tick, reaction);
  }

  // ----- Turns and runs -----

  lemma ProgressTurnEnds(c: Config, s: Client, a: Audit, input: Input)
    requires Good(c, s, a) && input.ProgressEvent?
    ensures Ends(c, a, Step(c, s, input))
  {
    ProgressEnds(c, s, a, input.generation, input.text, input.now, input.reactions);
  }

  lemma CloseTurnEnds(c: Config, s: Client, a: Audit, input: Input)
    requires Good(c, s, a) && (input.ResponseEvent? || input.CompleteEvent?)
    ensures Ends(c, a, Step(c, s, input))
  {
    var noContent := input.ResponseEvent? && input.noContent;
    ServerClosedEnds(c, s, a, input.generation, noContent, input.now, input.reaction);
  }

  lemma FailTurnEnds(c: Config, s: Client, a: Audit, input: Input)
    requires Good(c, s, a) && (input.ErrorEvent? || input.StaleTimeout?)
    ensures Ends(c, a, Step(c, s, input))
  {
    var error := if input.ErrorEvent? then Some(input.error) else None;
    FailedEnds(c, s, a, input.generation, error, false, false, input.now);
  }

  lemma AgeTurnEnds(c: Config, s: Client, a: Audit, input: Input)
    requires Good(c, s, a) && input.AgeTimeout?
    ensures Ends(c, a, Step(c, s, input))
  {
    ReopenEnds(c, s, a, input.generation);
  }

  lemma CallbackTurnEnds(c: Config, s: Client, a: Audit, input: Input)
    requires Good(c, s, a) && FromConnection(input)
    ensures Ends(c, a, Step(c, s, input))
  {
    if input.ProgressEvent? {
      ProgressTurnEnds(c, s, a, input);
    } else if input.ResponseEvent? || input.CompleteEvent? {
      CloseTurnEnds(c, s, a, input);
    } else if input.ErrorEvent? || input.StaleTimeout? {
      FailTurnEnds(c, s, a, input);
    } else {
      AgeTurnEnds(c, s, a, input);
    }
  }

  lemma OwnTurnEnds(c: Config, s: Client, a: Audit, input: Input)
    requires Good(c, s, a) && (input.CallStart? || input.CallStop? || input.SessionBecomes? || input.SessionEffect?)
    ensures Ends(c, a, Step(c, s, input))
  {
    StartEnds(c, s, a);
    StopEnds(c, s, a);
  }

  lemma TenantTurnEnds(c: Config, s: Client, a: Audit, input: Input)
    requires Good(c, s, a) && input.TenantBecomes?
    ensures Ends(c, a, Step(c, s, input))
  {
    TenantEnds(c, s, a, input.next, input.reaction);
  }

  lemma TimerTurnEnds(c: Config, s: Client, a: Audit, input: Input)
    requires Good(c, s, a) && (input.RetryTimeout? || input.PollTick?)
    ensures Ends(c, a, Step(c, s, input))
  {
    if input.PollTick? {
      PollEnds(c, s, a, input.reaction);
    } else if s.retryTimer.Some? {
      OpenEnds(c, s.(retryTimer := None), a);
    }
  }

  /** Every turn of the event loop keeps the invariant and makes only allowed outputs. */
  lemma StepEnds(c: Config, s: Client, a: Audit, input: Input)
    requires Good(c, s, a)
    ensures Ends(c, a, Step(c, s, input))
  {
    if FromConnection(input) {
      CallbackTurnEnds(c, s, a, input);
    } else if input.RetryTimeout? || input.PollTick? {
      TimerTurnEnds(c, s, a, input);
    } else if input.TenantBecomes? {
      TenantTurnEnds(c, s, a, input);
    } else {
      OwnTurnEnds(c, s, a, input);
    }
  }

  lemma {:induction false} RunFrom(c: Config, s: Client, a: Audit, inputs: seq<Input>)
    requires Good(c, s, a)
    ensures Ends(c, a, RunClient(c, s, inputs))
    decreases |inputs|
  {
    if inputs != [] {
      var first := Step(c, s, inputs[0]);
      StepEnds(c, s, a, inputs[0]);
      RunFrom(c, first.state, Replay(a, first.outputs), inputs[1..]);
      AfterReplays(a, first.outputs, RunClient(c, first.state, inputs[1..]));
    }
  }

  /** Every run of a fresh client keeps the invariant and makes only allowed outputs. */
  lemma RunIsGood(c: Config, sessionActive: bool, tenantId: Option<Text>, inputs: seq<Input>)
    ensures var run := RunClient(c, Fresh(sessionActive, tenantId), inputs);
            Inv(c, run.state) && Agrees(c, run.state, Replay(NOTHING_SEEN, run.outputs))
  {
    RunFrom(c, Fresh(sessionActive, tenantId), NOTHING_SEEN, inputs);
  }
}
