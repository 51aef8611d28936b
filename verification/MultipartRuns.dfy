/**
 What holds after any events of a multipart upload, whatever the interleaving of its workers.
 Each part below is an invariant with the lemma that every step keeps it.
 */
module MultipartRuns {
  import opened Wrappers
  import opened Machines
  import opened MultipartUpload

  // ----- Who holds which chunk -----

  predicate Holds(worker: Worker, index: int) {
    match worker
    case Idle => false
    case Done => false
    case Putting(i, _) => i == index
    case Refreshing(i, _) => i == index
    case Refreshed(i, _) => i == index
    case Uploaded(i) => i == index
    case Failed(i) => i == index
  }

  /** Chunks before the cursor have been taken; a chunk is in the hands of at most one worker. */
  ghost predicate Exclusive<T>(job: Upload<T>, s: State) {
    s.cursor <= |job.chunks| && |s.workers| == WorkerCount(job) &&
    (forall w, i :: 0 <= w < |s.workers| && Holds(s.workers[w], i) ==> i < s.cursor) &&
    forall w, v, i :: 0 <= w < v < |s.workers| && Holds(s.workers[w], i) ==> !Holds(s.workers[v], i)
  }

  /** A worker that keeps its chunk, takes the one at the cursor or lets go leaves holding exclusive. */
  lemma ExclusiveMove<T>(job: Upload<T>, s: State, t: State, w: nat)
    requires Exclusive(job, s) && w < |s.workers|
    requires |t.workers| == |s.workers| && t.workers == s.workers[w := t.workers[w]]
    requires s.cursor <= t.cursor <= |job.chunks|
    requires forall i :: Holds(t.workers[w], i) ==> Holds(s.workers[w], i) || s.cursor <= i < t.cursor
    ensures Exclusive(job, t)
  {
  }

  lemma ExclusiveStep<T>(job: Upload<T>, s: State, e: Event)
    requires Exclusive(job, s)
    ensures Exclusive(job, Step(job, s, e).state)
  {
    if !e.WorkersSettle? && !e.CompleteReturns? && e.worker < |s.workers| {
      var w := e.worker;
      var t := StepWorker(job, s, e).state;
      assert t.workers == s.workers[w := t.workers[w]];
      ExclusiveMove(job, s, t, w);
    }
  }

  // ----- Every chunk taken is recorded or in somebody's hands -----

  ghost predicate Grows(before: seq<Part>, after: seq<Part>) {
    forall k :: Has(before, k) ==> Has(after, k)
  }

  predicate Unrecorded(worker: Worker, index: int) {
    Holds(worker, index) && !worker.Uploaded?
  }

  ghost predicate InHand(s: State, index: int) {
    exists w :: 0 <= w < |s.workers| && Unrecorded(s.workers[w], index)
  }

  ghost predicate Covered<T>(job: Upload<T>, s: State) {
    (forall i :: 0 <= i < s.cursor && !Has(s.completed, i + 1) ==> InHand(s, i)) &&
    (forall w :: 0 <= w < |s.workers| && s.workers[w].Uploaded? ==> Has(s.completed, s.workers[w].index + 1)) &&
    (forall w :: 0 <= w < |s.workers| && s.workers[w].Done? ==> s.cursor >= |job.chunks|)
  }

  lemma RecordGrows(parts: seq<Part>, part: Part)
    ensures Grows(parts, Record(parts, part)) && Has(Record(parts, part), part.partNumber)
  {
    RecordHas(parts, part, part.partNumber);
    forall k | Has(parts, k) ensures Has(Record(parts, part), k) {
      RecordHas(parts, part, k);
    }
  }

  lemma RecordAllGrows(parts: seq<Part>, reported: seq<Part>)
    ensures Grows(parts, RecordAll(parts, reported))
  {
    forall k | Has(parts, k) ensures Has(RecordAll(parts, reported), k) {
      RecordAllHas(parts, reported, k);
    }
  }

  lemma CoveredMove<T>(job: Upload<T>, s: State, t: State, w: nat)
    requires Covered(job, s) && w < |s.workers| && Grows(s.completed, t.completed)
    requires |t.workers| == |s.workers| && t.workers == s.workers[w := t.workers[w]]
    requires s.cursor <= t.cursor
    requires forall i :: Unrecorded(s.workers[w], i) || s.cursor <= i < t.cursor ==>
               Has(t.completed, i + 1) || Unrecorded(t.workers[w], i)
    requires t.workers[w].Uploaded? ==> Has(t.completed, t.workers[w].index + 1)
    requires t.workers[w].Done? ==> t.cursor >= |job.chunks|
    ensures Covered(job, t)
  {
    forall i | 0 <= i < t.cursor && !Has(t.completed, i + 1) ensures InHand(t, i) {
      if Unrecorded(t.workers[w], i) {
      } else {
        assert InHand(s, i);
        var v :| 0 <= v < |s.workers| && Unrecorded(s.workers[v], i);
        assert v != w && t.workers[v] == s.workers[v];
      }
    }
  }

  lemma CoveredClaim<T>(job: Upload<T>, s: State, w: nat)
    requires Covered(job, s) && w < |s.workers| && s.workers[w].Idle?
    ensures Covered(job, Claim(job, s, w).state)
  {
    CoveredMove(job, s, Claim(job, s, w).state, w);
  }

  lemma CoveredContinue<T>(job: Upload<T>, s: State, w: nat)
    requires Covered(job, s) && w < |s.workers|
    ensures Covered(job, Continue(job, s, w).state)
  {
    if s.workers[w].Idle? {
      CoveredClaim(job, s, w);
    } else if s.workers[w].Refreshed? || s.workers[w].Uploaded? {
      CoveredMove(job, s, Continue(job, s, w).state, w);
    }
  }

  lemma CoveredSettlePut<T>(job: Upload<T>, s: State, w: nat, success: bool, etag: Option<string>)
    requires Covered(job, s) && w < |s.workers|
    ensures Covered(job, SettlePut(job, s, w, success, etag).state)
  {
    if s.workers[w].Putting? {
      var part: Part := Entry(s.workers[w].index + 1, etag);
      RecordGrows(s.completed, part);
      CoveredMove(job, s, SettlePut(job, s, w, success, etag).state, w);
    }
  }

  lemma CoveredSettleStatus<T>(job: Upload<T>, s: State, w: nat, success: bool, reported: Option<seq<Part>>)
    requires Covered(job, s) && w < |s.workers|
    ensures Covered(job, SettleStatus<T>(s, w, success, reported).state)
  {
    if s.workers[w].Refreshing? {
      if reported.Some? {
        RecordAllGrows(s.completed, reported.value);
      }
      CoveredMove(job, s, SettleStatus<T>(s, w, success, reported).state, w);
    }
  }

  lemma CoveredStep<T>(job: Upload<T>, s: State, e: Event)
    requires Covered(job, s)
    ensures Covered(job, Step(job, s, e).state)
  {
    match e
    case WorkersSettle => assert forall i :: InHand(s, i) ==> InHand(SettleAll<T>(s).state, i);
    case CompleteReturns(ok) => assert forall i :: InHand(s, i) ==> InHand(SettleCompletion<T>(s, ok).state, i);
    case Resume(w) => if w < |s.workers| { CoveredContinue(job, s, w); }
    case PutSucceeds(w, etag) => if w < |s.workers| { CoveredSettlePut(job, s, w, true, etag); }
    case PutFails(w) => if w < |s.workers| { CoveredSettlePut(job, s, w, false, None); }
    case StatusFails(w) => if w < |s.workers| { CoveredSettleStatus(job, s, w, false, None); }
    case StatusReturns(w, reported) => if w < |s.workers| { CoveredSettleStatus(job, s, w, true, reported); }
  }

  lemma CompletedGrows<T>(job: Upload<T>, s: State, e: Event)
    ensures Grows(s.completed, Step(job, s, e).state.completed)
    ensures e.PutSucceeds? && e.worker < |s.workers| && s.workers[e.worker].Putting? ==>
            Has(Step(job, s, e).state.completed, s.workers[e.worker].index + 1)
  {
    match e
    case PutSucceeds(w, etag) =>
      if w < |s.workers| && s.workers[w].Putting? {
        var part: Part := Entry(s.workers[w].index + 1, etag);
        RecordGrows(s.completed, part);
      }
    case StatusReturns(w, reported) =>
      if reported.Some? {
        RecordAllGrows(s.completed, reported.value);
      }
    case _ =>
  }

  // ----- The parts recorded -----

  lemma UniqueStep<T>(job: Upload<T>, s: State, e: Event)
    requires Unique(s.completed)
    ensures Unique(Step(job, s, e).state.completed)
  {
    match e
    case PutSucceeds(w, etag) =>
      if w < |s.workers| && s.workers[w].Putting? {
        var part: Part := Entry(s.workers[w].index + 1, etag);
        RecordKeepsUnique(s.completed, part);
      }
    case StatusReturns(w, reported) =>
      if reported.Some? {
        RecordAllKeepsUnique(s.completed, reported.value);
      }
    case _ =>
  }

  ghost predicate InRange<T>(job: Upload<T>, parts: seq<Part>) {
    forall k :: Has(parts, k) ==> 1 <= k <= |job.chunks|
  }

  /** A status that reports only parts of this upload. */
  ghost predicate Honest<T>(job: Upload<T>, e: Event) {
    e.StatusReturns? && e.reported.Some? ==> InRange(job, e.reported.value)
  }

  lemma InRangeStep<T>(job: Upload<T>, s: State, e: Event)
    requires Exclusive(job, s) && Honest(job, e) && InRange(job, s.completed)
    ensures InRange(job, Step(job, s, e).state.completed)
  {
    forall k | Has(Step(job, s, e).state.completed, k) ensures 1 <= k <= |job.chunks| {
      match e
      case PutSucceeds(w, etag) =>
        if w < |s.workers| && s.workers[w].Putting? {
          assert Holds(s.workers[w], s.workers[w].index);
          var part: Part := Entry(s.workers[w].index + 1, etag);
          RecordHas(s.completed, part, k);
        }
      case StatusReturns(w, reported) =>
        if reported.Some? {
          RecordAllHas(s.completed, reported.value, k);
        }
      case _ =>
    }
  }

  // ----- What the effects of a run add up to -----

  /** The chunks taken off the cursor, in order. */
  function Claims<T>(log: seq<Effect<T>>): seq<nat> {
    if log == [] then []
    else Claims(log[..|log| - 1]) + if log[|log| - 1].Claimed? then [log[|log| - 1].index] else []
  }

  /** How often a chunk has been sent. */
  function Puts<T>(log: seq<Effect<T>>, index: int): nat {
    if log == [] then 0
    else Puts(log[..|log| - 1], index) + if log[|log| - 1].Put? && log[|log| - 1].index == index then 1 else 0
  }

  /** The requests sent and not yet answered. */
  function InFlight<T>(log: seq<Effect<T>>): int {
    if log == [] then 0
    else
      InFlight(log[..|log| - 1]) +
      match log[|log| - 1]
      case Put(_, _) => 1
      case PutSettled(_) => -1
      case _ => 0
  }

  /** The percentages shown. */
  function Shown<T>(log: seq<Effect<T>>): seq<int> {
    if log == [] then []
    else Shown(log[..|log| - 1]) + if log[|log| - 1].Progress? then [log[|log| - 1].percent] else []
  }

  /** The completion requests sent. */
  function Requests<T>(log: seq<Effect<T>>): seq<seq<Part>> {
    if log == [] then []
    else Requests(log[..|log| - 1]) + if log[|log| - 1].CompleteRequest? then [log[|log| - 1].parts] else []
  }

  lemma Snoc<T>(log: seq<T>, outputs: seq<T>)
    requires outputs != []
    ensures var all, last := log + outputs, |outputs| - 1;
            all[..|all| - 1] == log + outputs[..last] && all[|all| - 1] == outputs[last]
  {
  }

  lemma {:induction false} ClaimsAppend<T>(log: seq<Effect<T>>, outputs: seq<Effect<T>>)
    ensures Claims(log + outputs) == Claims(log) + Claims(outputs)
    decreases |outputs|
  {
    if outputs == [] {
      assert log + outputs == log;
    } else {
      Snoc(log, outputs);
      ClaimsAppend(log, outputs[..|outputs| - 1]);
    }
  }

  lemma {:induction false} PutsAppend<T>(log: seq<Effect<T>>, outputs: seq<Effect<T>>, index: int)
    ensures Puts(log + outputs, index) == Puts(log, index) + Puts(outputs, index)
    decreases |outputs|
  {
    if outputs == [] {
      assert log + outputs == log;
    } else {
      Snoc(log, outputs);
      PutsAppend(log, outputs[..|outputs| - 1], index);
    }
  }

  lemma {:induction false} InFlightAppend<T>(log: seq<Effect<T>>, outputs: seq<Effect<T>>)
    ensures InFlight(log + outputs) == InFlight(log) + InFlight(outputs)
    decreases |outputs|
  {
    if outputs == [] {
      assert log + outputs == log;
    } else {
      Snoc(log, outputs);
      InFlightAppend(log, outputs[..|outputs| - 1]);
    }
  }

  lemma {:induction false} ShownAppend<T>(log: seq<Effect<T>>, outputs: seq<Effect<T>>)
    ensures Shown(log + outputs) == Shown(log) + Shown(outputs)
    decreases |outputs|
  {
    if outputs == [] {
      assert log + outputs == log;
    } else {
      Snoc(log, outputs);
      ShownAppend(log, outputs[..|outputs| - 1]);
    }
  }

  lemma {:induction false} RequestsAppend<T>(log: seq<Effect<T>>, outputs: seq<Effect<T>>)
    ensures Requests(log + outputs) == Requests(log) + Requests(outputs)
    decreases |outputs|
  {
    if outputs == [] {
      assert log + outputs == log;
    } else {
      Snoc(log, outputs);
      RequestsAppend(log, outputs[..|outputs| - 1]);
    }
  }

  lemma OneEffect<T>(effect: Effect<T>)
    ensures Claims([effect]) == if effect.Claimed? then [effect.index] else []
    ensures forall i :: Puts([effect], i) == if effect.Put? && effect.index == i then 1 else 0
    ensures InFlight([effect]) == if effect.Put? then 1 else if effect.PutSettled? then -1 else 0
    ensures Shown([effect]) == if effect.Progress? then [effect.percent] else []
    ensures Requests([effect]) == if effect.CompleteRequest? then [effect.parts] else []
  {
    assert [effect][..0] == [];
  }

  /** A chunk taken and sent. */
  lemma TakenEffects<T>(claimed: Effect<T>, put: Effect<T>)
    requires claimed.Claimed? && put.Put?
    ensures Claims([claimed] + [put]) == [claimed.index]
    ensures forall i :: Puts([claimed] + [put], i) == if put.index == i then 1 else 0
    ensures InFlight([claimed] + [put]) == 1
  {
    OneEffect(claimed);
    OneEffect(put);
    ClaimsAppend([claimed], [put]);
    InFlightAppend([claimed], [put]);
    forall i ensures Puts([claimed] + [put], i) == if put.index == i then 1 else 0 {
      PutsAppend([claimed], [put], i);
    }
  }

  /** Only a worker that looks for a chunk may make two effects, or take one. */
  lemma AtMostOneEffect<T>(job: Upload<T>, s: State, e: Event)
    requires !(e.Resume? && e.worker < |s.workers| && s.workers[e.worker].Idle?)
    ensures var next := Step(job, s, e);
            next.state.cursor == s.cursor &&
            (next.outputs == [] || (next.outputs == [next.outputs[0]] && !next.outputs[0].Claimed?))
  {
  }

  /** Only a worker that decides to try again sends a chunk that it holds. */
  lemma OthersSendNothing<T>(job: Upload<T>, s: State, e: Event)
    requires !(e.Resume? && e.worker < |s.workers| && (s.workers[e.worker].Idle? || s.workers[e.worker].Refreshed?))
    ensures forall effect :: effect in Step(job, s, e).outputs ==> !effect.Put?
  {
  }

  // ----- No chunk is taken twice -----

  ghost predicate ClaimsCount<T>(s: State, log: seq<Effect<T>>) {
    |Claims(log)| == s.cursor && forall k :: 0 <= k < s.cursor ==> Claims(log)[k] == k
  }

  lemma ClaimsOfClaim<T>(job: Upload<T>, s: State, w: nat)
    requires w < |s.workers|
    ensures var next := Claim(job, s, w);
            (next.state.cursor == s.cursor && Claims(next.outputs) == []) ||
            (next.state.cursor == s.cursor + 1 && Claims(next.outputs) == [s.cursor])
  {
    var claimed: Effect<T> := Claimed(s.cursor);
    OneEffect(claimed);
    if s.cursor < |job.chunks| {
      TakenEffects(claimed, Put(s.cursor, Slice(job, NumberAt(job, s.cursor))));
    }
  }

  lemma ClaimedByStep<T>(job: Upload<T>, s: State, e: Event, log: seq<Effect<T>>)
    ensures var next := Step(job, s, e);
            (next.state.cursor == s.cursor && Claims(log + next.outputs) == Claims(log)) ||
            (next.state.cursor == s.cursor + 1 && Claims(log + next.outputs) == Claims(log) + [s.cursor])
  {
    var outputs := Step(job, s, e).outputs;
    ClaimsAppend(log, outputs);
    if e.Resume? && e.worker < |s.workers| && s.workers[e.worker].Idle? {
      ClaimsOfClaim(job, s, e.worker);
    } else {
      AtMostOneEffect(job, s, e);
      if outputs != [] {
        OneEffect(outputs[0]);
      }
    }
  }

  lemma ClaimsStep<T>(job: Upload<T>, s: State, e: Event, log: seq<Effect<T>>)
    requires ClaimsCount(s, log)
    ensures ClaimsCount(Step(job, s, e).state, log + Step(job, s, e).outputs)
  {
    ClaimedByStep(job, s, e, log);
  }

  // ----- How often a chunk is sent -----

  function Retries(job: Job): nat {
    if job.retryAttempts > 0 then job.retryAttempts else 0
  }

  /** The worker is sending the chunk for the attempt'th time again, or finding out how that went. */
  predicate Attempting(worker: Worker, index: int, attempt: int) {
    match worker
    case Putting(i, a) => i == index && a == attempt
    case Refreshing(i, a) => i == index && a == attempt
    case Refreshed(i, a) => i == index && a == attempt
    case _ => false
  }

  ghost predicate Bounded<T>(job: Upload<T>, s: State, log: seq<Effect<T>>, index: int) {
    Puts(log, index) <= Retries(job) + 1 && (index >= s.cursor ==> Puts(log, index) == 0) &&
    forall w, a :: 0 <= w < |s.workers| && Attempting(s.workers[w], index, a) ==>
      Puts(log, index) == a + 1 && a <= Retries(job)
  }

  lemma BoundedMove<T>(job: Upload<T>, s: State, t: State, w: nat, log: seq<Effect<T>>, after: seq<Effect<T>>, index: int)
    requires Bounded(job, s, log, index) && Exclusive(job, s) && w < |s.workers|
    requires |t.workers| == |s.workers| && t.workers == s.workers[w := t.workers[w]] && s.cursor <= t.cursor
    requires if Puts(after, index) == Puts(log, index) then
               forall a :: Attempting(t.workers[w], index, a) ==> Attempting(s.workers[w], index, a)
             else
               Puts(after, index) == Puts(log, index) + 1 && index < t.cursor && Puts(after, index) <= Retries(job) + 1 &&
               (forall a :: Attempting(t.workers[w], index, a) ==> a == Puts(log, index)) &&
               (Holds(s.workers[w], index) || index >= s.cursor)
    ensures Bounded(job, t, after, index)
  {
    forall v, a | 0 <= v < |t.workers| && Attempting(t.workers[v], index, a)
      ensures Puts(after, index) == a + 1 && a <= Retries(job)
    {
      if v != w {
        assert t.workers[v] == s.workers[v] && Holds(s.workers[v], index);
        assert Attempting(s.workers[v], index, a);
      }
    }
  }

  lemma BoundedOther<T>(job: Upload<T>, s: State, e: Event, log: seq<Effect<T>>, after: seq<Effect<T>>, index: int)
    requires Bounded(job, s, log, index) && Exclusive(job, s) && Puts(after, index) == Puts(log, index)
    requires e.Resume? && e.worker < |s.workers| ==> Resumes(job, s, e.worker, index)
    ensures Bounded(job, Step(job, s, e).state, after, index)
  {
    if !e.WorkersSettle? && !e.CompleteReturns? && e.worker < |s.workers| {
      var t := StepWorker(job, s, e).state;
      assert t.workers == s.workers[e.worker := t.workers[e.worker]];
      BoundedMove(job, s, t, e.worker, log, after, index);
    }
  }

  /** The turn of a worker does not send this chunk. */
  ghost predicate Resumes<T>(job: Upload<T>, s: State, w: nat, index: int)
    requires w < |s.workers|
  {
    forall a :: Attempting(Continue(job, s, w).state.workers[w], index, a) ==> Attempting(s.workers[w], index, a)
  }

  lemma BoundedStep<T>(job: Upload<T>, s: State, e: Event, log: seq<Effect<T>>, index: int)
    requires Bounded(job, s, log, index) && Exclusive(job, s)
    ensures Bounded(job, Step(job, s, e).state, log + Step(job, s, e).outputs, index)
  {
    var next := Step(job, s, e);
    var after := log + next.outputs;
    PutsAppend(log, next.outputs, index);
    PutsStep(job, s, e, index);
    if Puts(after, index) == Puts(log, index) {
      BoundedOther(job, s, e, log, after, index);
    } else {
      var w := e.worker;
      assert next.state.workers == s.workers[w := next.state.workers[w]];
      if s.workers[w].Refreshed? {
        assert Attempting(s.workers[w], index, s.workers[w].attempt);
      }
      BoundedMove(job, s, next.state, w, log, after, index);
    }
  }

  lemma PutsOfClaim<T>(job: Upload<T>, s: State, w: nat, index: int)
    requires w < |s.workers| && s.workers[w].Idle?
    ensures var next := Claim(job, s, w);
            (Puts(next.outputs, index) == 0 && Resumes(job, s, w, index)) ||
            (Puts(next.outputs, index) == 1 && index == s.cursor < |job.chunks| && next.state.workers[w] == Putting(index, 0))
  {
    var claimed: Effect<T> := Claimed(s.cursor);
    OneEffect(claimed);
    if s.cursor < |job.chunks| {
      TakenEffects(claimed, Put(s.cursor, Slice(job, NumberAt(job, s.cursor))));
    }
  }

  lemma PutsOfDecide<T>(job: Upload<T>, s: State, w: nat, index: int)
    requires w < |s.workers| && s.workers[w].Refreshed?
    ensures var next, i, a := Decide(job, s, w, s.workers[w].index, s.workers[w].attempt), s.workers[w].index, s.workers[w].attempt;
            (Puts(next.outputs, index) == 0 && Resumes(job, s, w, index)) ||
            (Puts(next.outputs, index) == 1 && i == index && a < job.retryAttempts && next.state.workers[w] == Putting(i, a + 1))
  {
    var i := s.workers[w].index;
    var put: Effect<T> := Put(i, Slice(job, NumberAt(job, i)));
    OneEffect(put);
  }

  lemma PutsOfOthers<T>(job: Upload<T>, s: State, e: Event, index: int)
    requires !(e.Resume? && e.worker < |s.workers| && (s.workers[e.worker].Idle? || s.workers[e.worker].Refreshed?))
    ensures Puts(Step(job, s, e).outputs, index) == 0
    ensures e.Resume? && e.worker < |s.workers| ==> Resumes(job, s, e.worker, index)
  {
    var outputs := Step(job, s, e).outputs;
    AtMostOneEffect(job, s, e);
    OthersSendNothing(job, s, e);
    if outputs != [] {
      OneEffect(outputs[0]);
      assert outputs[0] in outputs;
    }
  }

  /** Which step sends a chunk: taking it, or deciding to try again. */
  lemma PutsStep<T>(job: Upload<T>, s: State, e: Event, index: int)
    ensures var next := Step(job, s, e);
            (Puts(next.outputs, index) == 0 &&
             (e.Resume? && e.worker < |s.workers| ==> Resumes(job, s, e.worker, index))) ||
            (Puts(next.outputs, index) == 1 && e.Resume? && e.worker < |s.workers| &&
             match s.workers[e.worker]
             case Idle => index == s.cursor < |job.chunks| && next.state.workers[e.worker] == Putting(index, 0)
             case Refreshed(i, a) => i == index && a < job.retryAttempts && next.state.workers[e.worker] == Putting(i, a + 1)
             case _ => false)
  {
    if e.Resume? && e.worker < |s.workers| && s.workers[e.worker].Idle? {
      PutsOfClaim(job, s, e.worker, index);
    } else if e.Resume? && e.worker < |s.workers| && s.workers[e.worker].Refreshed? {
      PutsOfDecide(job, s, e.worker, index);
    } else {
      PutsOfOthers(job, s, e, index);
    }
  }

  // ----- How many requests are out at once -----

  function Sending(worker: Worker): nat {
    if worker.Putting? then 1 else 0
  }

  function Senders(workers: seq<Worker>): (count: nat)
    ensures count <= |workers|
  {
    if workers == [] then 0 else Sending(workers[0]) + Senders(workers[1..])
  }

  lemma {:induction false} SendersUpdate(workers: seq<Worker>, w: nat, worker: Worker)
    requires w < |workers|
    ensures Senders(workers[w := worker]) == Senders(workers) - Sending(workers[w]) + Sending(worker)
    decreases w
  {
    if w == 0 {
      assert workers[w := worker][1..] == workers[1..];
    } else {
      assert workers[w := worker][1..] == workers[1..][w - 1 := worker];
      SendersUpdate(workers[1..], w - 1, worker);
    }
  }

  lemma {:induction false} IdlersSendNothing(count: nat)
    ensures Senders(Idlers(count)) == 0
  {
    NobodySends(Idlers(count));
  }

  lemma {:induction false} NobodySends(workers: seq<Worker>)
    requires forall w :: 0 <= w < |workers| ==> !workers[w].Putting?
    ensures Senders(workers) == 0
  {
    if workers != [] {
      NobodySends(workers[1..]);
    }
  }

  lemma InFlightOfClaim<T>(job: Upload<T>, s: State, w: nat)
    requires w < |s.workers| && s.workers[w].Idle?
    ensures var next := Claim(job, s, w); InFlight(next.outputs) == Sending(next.state.workers[w])
  {
    var claimed: Effect<T> := Claimed(s.cursor);
    OneEffect(claimed);
    if s.cursor < |job.chunks| {
      TakenEffects(claimed, Put(s.cursor, Slice(job, NumberAt(job, s.cursor))));
    }
  }

  lemma InFlightOfWorker<T>(job: Upload<T>, s: State, e: Event)
    requires !e.WorkersSettle? && !e.CompleteReturns? && e.worker < |s.workers|
    requires !(e.Resume? && s.workers[e.worker].Idle?)
    ensures var next := StepWorker(job, s, e);
            InFlight(next.outputs) == Sending(next.state.workers[e.worker]) - Sending(s.workers[e.worker])
  {
    var outputs := StepWorker(job, s, e).outputs;
    AtMostOneEffect(job, s, e);
    if outputs != [] {
      OneEffect(outputs[0]);
    }
  }

  lemma InFlightOfMain<T>(job: Upload<T>, s: State, e: Event)
    requires e.WorkersSettle? || e.CompleteReturns? || e.worker >= |s.workers|
    ensures InFlight(Step(job, s, e).outputs) == 0 && Step(job, s, e).state.workers == s.workers
  {
    var outputs := Step(job, s, e).outputs;
    AtMostOneEffect(job, s, e);
    if outputs != [] {
      OneEffect(outputs[0]);
    }
  }

  /** A turn of a worker changes no other worker. */
  lemma OneWorkerMoves<T>(job: Upload<T>, s: State, e: Event)
    requires !e.WorkersSettle? && !e.CompleteReturns? && e.worker < |s.workers|
    ensures var t := StepWorker(job, s, e).state;
            |t.workers| == |s.workers| && t.workers == s.workers[e.worker := t.workers[e.worker]]
  {
  }

  lemma InFlightStep<T>(job: Upload<T>, s: State, e: Event, log: seq<Effect<T>>)
    requires InFlight(log) == Senders(s.workers)
    ensures InFlight(log + Step(job, s, e).outputs) == Senders(Step(job, s, e).state.workers)
  {
    InFlightAppend(log, Step(job, s, e).outputs);
    if e.WorkersSettle? || e.CompleteReturns? || e.worker >= |s.workers| {
      InFlightOfMain(job, s, e);
    } else {
      OneWorkerMoves(job, s, e);
      SendersUpdate(s.workers, e.worker, StepWorker(job, s, e).state.workers[e.worker]);
      if e.Resume? && s.workers[e.worker].Idle? {
        InFlightOfClaim(job, s, e.worker);
      } else {
        InFlightOfWorker(job, s, e);
      }
    }
  }

  // ----- Completion -----

  /** Once completion has been requested every worker is done. */
  ghost predicate Settled(s: State) {
    s.main == Completing || s.main == Finished ==> forall w :: 0 <= w < |s.workers| ==> s.workers[w].Done?
  }

  lemma SettledStep<T>(job: Upload<T>, s: State, e: Event)
    requires Settled(s)
    ensures Settled(Step(job, s, e).state)
  {
  }

  /** What a completion request must be: ascending, and with every part if there were workers at all. */
  ghost predicate GoodRequest<T>(job: Upload<T>, parts: seq<Part>) {
    Ascending(parts) && (job.concurrency >= 1 ==> forall k :: 1 <= k <= |job.chunks| ==> Has(parts, k))
  }

  ghost predicate RequestsGood<T>(job: Upload<T>, s: State, log: seq<Effect<T>>) {
    |Requests(log)| <= 1 && (s.main == Waiting ==> Requests(log) == []) &&
    forall r :: 0 <= r < |Requests(log)| ==> GoodRequest(job, Requests(log)[r])
  }

  /** When all workers are done, every part is recorded. */
  lemma DoneMeansRecorded<T>(job: Upload<T>, s: State)
    requires Exclusive(job, s) && Covered(job, s) && Unique(s.completed)
    requires forall w :: 0 <= w < |s.workers| ==> s.workers[w].Done?
    ensures GoodRequest(job, SortParts(s.completed))
  {
    SortAscends(s.completed);
    if job.concurrency >= 1 {
      forall k | 1 <= k <= |job.chunks| ensures Has(SortParts(s.completed), k) {
        assert s.workers[0].Done?;
        assert !InHand(s, k - 1);
        SortHas(s.completed, k);
      }
    }
  }

  lemma RequestsStep<T>(job: Upload<T>, s: State, e: Event, log: seq<Effect<T>>)
    requires Exclusive(job, s) && Covered(job, s) && Unique(s.completed)
    requires RequestsGood(job, s, log)
    ensures RequestsGood(job, Step(job, s, e).state, log + Step(job, s, e).outputs)
  {
    RequestedByStep(job, s, e, log);
    if s.main == Waiting && Step(job, s, e).state.main == Completing {
      DoneMeansRecorded(job, s);
    }
  }

  /** Only the settling of the workers requests completion. */
  lemma WorkersRequestNothing<T>(job: Upload<T>, s: State, e: Event)
    requires !e.WorkersSettle?
    ensures forall effect :: effect in Step(job, s, e).outputs ==> !effect.CompleteRequest?
    ensures Step(job, s, e).state.main == s.main || (s.main == Completing && Step(job, s, e).state.main != Waiting)
  {
  }

  lemma {:induction false} NothingRequested<T>(outputs: seq<Effect<T>>)
    requires forall effect :: effect in outputs ==> !effect.CompleteRequest?
    ensures Requests(outputs) == []
    decreases |outputs|
  {
    if outputs != [] {
      NothingRequested(outputs[..|outputs| - 1]);
      assert outputs[|outputs| - 1] in outputs;
    }
  }

  lemma SettleAllRequests<T>(s: State, log: seq<Effect<T>>)
    ensures var next := SettleAll<T>(s);
            if s.main == Waiting && next.state.main == Completing then
              Requests(log + next.outputs) == Requests(log) + [SortParts(s.completed)] &&
              forall w :: 0 <= w < |s.workers| ==> s.workers[w].Done?
            else Requests(log + next.outputs) == Requests(log)
    ensures s.main != Waiting ==> SettleAll<T>(s).state.main == s.main
  {
    var outputs := SettleAll<T>(s).outputs;
    RequestsAppend(log, outputs);
    if outputs != [] {
      OneEffect(outputs[0]);
    }
  }

  lemma RequestedByStep<T>(job: Upload<T>, s: State, e: Event, log: seq<Effect<T>>)
    ensures var next := Step(job, s, e);
            if s.main == Waiting && next.state.main == Completing then
              Requests(log + next.outputs) == Requests(log) + [SortParts(s.completed)] &&
              forall w :: 0 <= w < |s.workers| ==> s.workers[w].Done?
            else Requests(log + next.outputs) == Requests(log)
    ensures s.main != Waiting ==> Step(job, s, e).state.main != Waiting
  {
    if e.WorkersSettle? {
      SettleAllRequests(s, log);
    } else {
      WorkersRequestNothing(job, s, e);
      NothingRequested(Step(job, s, e).outputs);
      RequestsAppend(log, Step(job, s, e).outputs);
    }
  }

  // ----- Progress -----

  lemma ChunkIsNotNegative<T>(job: Upload<T>, number: int)
    requires 1 <= number <= |job.chunks|
    ensures Min(job.chunkSize, |job.file| - Start(job, number)) >= 0
  {
    CountCovers(|job.file|, job.chunkSize);
    StartsAscend(job, number, |job.chunks|);
    NextStart(job, |job.chunks|);
  }

  lemma StartsAscend(job: Job, a: int, b: int)
    requires a <= b
    ensures Start(job, a) <= Start(job, b)
  {
    assert (b - a) * job.chunkSize >= 0;
  }

  lemma {:induction false} BytesGrow<T>(job: Upload<T>, before: seq<Part>, after: seq<Part>, count: nat)
    requires count <= |job.chunks| && Grows(before, after)
    ensures 0 <= CompletedBytes(job, before, count) <= CompletedBytes(job, after, count)
  {
    if count > 0 {
      BytesGrow(job, before, after, count - 1);
      ChunkIsNotNegative(job, count);
    }
  }

  lemma ShareGrows(a: int, b: int, size: int)
    requires 0 <= a <= b && size > 0
    ensures 0.0 <= a as real / size as real <= b as real / size as real
  {
    assert a as real / size as real == a as real * (1.0 / size as real);
    assert b as real / size as real == b as real * (1.0 / size as real);
  }

  lemma PercentGrows<T>(job: Upload<T>, before: seq<Part>, after: seq<Part>)
    requires Grows(before, after)
    ensures 0 <= Percent(job, before) <= Percent(job, after) <= 99
  {
    var count := |job.chunks|;
    BytesGrow(job, before, after, count);
    if |job.file| > 0 {
      ShareGrows(CompletedBytes(job, before, count), CompletedBytes(job, after, count), |job.file|);
    }
  }

  ghost predicate Nondecreasing(shown: seq<int>) {
    forall i, j :: 0 <= i < j < |shown| ==> shown[i] <= shown[j]
  }

  /** Before the end what is shown stays within a bound; then a last 100 is shown. */
  ghost predicate ShownWithin(shown: seq<int>, finished: bool, bound: int) {
    shown != [] && Nondecreasing(shown) &&
    var last := |shown| - 1;
    (forall i :: 0 <= i < last ==> shown[i] <= 99) &&
    if finished then shown[last] == 100 else shown[last] <= bound
  }

  /** Until the upload has finished what is shown stays within what is recorded; then a last 100 is shown. */
  ghost predicate ProgressGood<T>(job: Upload<T>, s: State, shown: seq<int>) {
    ShownWithin(shown, s.main == Finished, Percent(job, s.completed))
  }

  /** Only a worker that has uploaded its chunk and the end of the upload show progress. */
  lemma OthersShowNothing<T>(job: Upload<T>, s: State, e: Event)
    requires !e.CompleteReturns?
    requires !(e.Resume? && e.worker < |s.workers| && s.workers[e.worker].Uploaded?)
    ensures forall effect :: effect in Step(job, s, e).outputs ==> !effect.Progress?
    ensures Step(job, s, e).state.main == Finished <==> s.main == Finished
  {
  }

  lemma {:induction false} NothingShown<T>(outputs: seq<Effect<T>>)
    requires forall effect :: effect in outputs ==> !effect.Progress?
    ensures Shown(outputs) == []
    decreases |outputs|
  {
    if outputs != [] {
      NothingShown(outputs[..|outputs| - 1]);
      assert outputs[|outputs| - 1] in outputs;
    }
  }

  lemma ShownByStep<T>(job: Upload<T>, s: State, e: Event)
    ensures var next := Step(job, s, e);
            var shown := Shown(next.outputs);
            if next.state.main == Finished && s.main != Finished then shown == [100]
            else shown == [] ||
                 (shown == [Percent(job, s.completed)] && next.state.completed == s.completed &&
                  e.Resume? && e.worker < |s.workers| && s.workers[e.worker].Uploaded?)
    ensures s.main == Finished ==> Step(job, s, e).state.main == Finished
  {
    var outputs := Step(job, s, e).outputs;
    if e.CompleteReturns? {
      if outputs != [] {
        OneEffect(outputs[0]);
      }
    } else if e.Resume? && e.worker < |s.workers| && s.workers[e.worker].Uploaded? {
      OneEffect(outputs[0]);
    } else {
      OthersShowNothing(job, s, e);
      NothingShown(outputs);
    }
  }

  lemma ShowsMore(shown: seq<int>, more: seq<int>, was: bool, finished: bool, before: int, after: int)
    requires ShownWithin(shown, was, before) && before <= after <= 99 && (was ==> finished && more == [])
    requires if finished && !was then more == [100] else more == [] || more == [before]
    ensures ShownWithin(shown + more, finished, after)
  {
    if more == [] {
      assert shown + more == shown;
    }
  }

  lemma ProgressStep<T>(job: Upload<T>, s: State, e: Event, shown: seq<int>)
    requires Settled(s) && ProgressGood(job, s, shown)
    ensures ProgressGood(job, Step(job, s, e).state, shown + Shown(Step(job, s, e).outputs))
  {
    var next := Step(job, s, e);
    ShownByStep(job, s, e);
    CompletedGrows(job, s, e);
    PercentGrows(job, s.completed, next.state.completed);
    ShowsMore(shown, Shown(next.outputs), s.main == Finished, next.state.main == Finished,
              Percent(job, s.completed), Percent(job, next.state.completed));
  }

  // ----- Together, over every run -----

  ghost predicate Good<T>(job: Upload<T>, s: State, log: seq<Effect<T>>) {
    Exclusive(job, s) && Covered(job, s) && Unique(s.completed) && Settled(s)
  }

  /** After any events each chunk is in the hands of at most one worker, and each chunk taken is recorded or in somebody's hands. */
  lemma {:induction false} RunIsGood<T>(job: Upload<T>, events: seq<Event>)
    ensures Good(job, After(job, events).state, After(job, events).outputs)
  {
    if events != [] {
      var last := |events| - 1;
      RunIsGood(job, events[..last]);
      var s := After(job, events[..last]).state;
      ExclusiveStep(job, s, events[last]);
      CoveredStep(job, s, events[last]);
      UniqueStep(job, s, events[last]);
      SettledStep(job, s, events[last]);
    }
  }

  /** The chunks taken are 0, 1, 2 and so on up to the cursor: no chunk is taken twice. */
  lemma {:induction false} NoChunkIsTakenTwice<T>(job: Upload<T>, events: seq<Event>)
    ensures var run := After(job, events);
            |Claims(run.outputs)| == run.state.cursor <= |job.chunks| &&
            forall k :: 0 <= k < run.state.cursor ==> Claims(run.outputs)[k] == k
  {
    RunIsGood(job, events);
    if events == [] {
      OneEffect(Begin(job).outputs[0]);
    } else {
      var last := |events| - 1;
      NoChunkIsTakenTwice(job, events[..last]);
      var before := After(job, events[..last]);
      ClaimsStep(job, before.state, events[last], before.outputs);
    }
  }

  /** No chunk is sent more than retryAttempts + 1 times, counting a negative number of retries as none. */
  lemma {:induction false} EachChunkIsSentWithinBounds<T>(job: Upload<T>, events: seq<Event>, index: int)
    ensures Bounded(job, After(job, events).state, After(job, events).outputs, index)
    ensures Puts(After(job, events).outputs, index) <= Retries(job) + 1
  {
    if events == [] {
      OneEffect(Begin(job).outputs[0]);
    } else {
      var last := |events| - 1;
      EachChunkIsSentWithinBounds(job, events[..last], index);
      RunIsGood(job, events[..last]);
      var before := After(job, events[..last]);
      BoundedStep(job, before.state, events[last], before.outputs, index);
    }
  }

  /** The requests that are out are those of the workers that are sending, so never more than `concurrency`. */
  lemma {:induction false} AtMostConcurrencyInFlight<T>(job: Upload<T>, events: seq<Event>)
    ensures var run := After(job, events);
            InFlight(run.outputs) == Senders(run.state.workers) &&
            0 <= InFlight(run.outputs) <= WorkerCount(job)
    ensures job.concurrency >= 0 ==> InFlight(After(job, events).outputs) <= job.concurrency
  {
    RunIsGood(job, events);
    if events == [] {
      OneEffect(Begin(job).outputs[0]);
      IdlersSendNothing(WorkerCount(job));
    } else {
      var last := |events| - 1;
      AtMostConcurrencyInFlight(job, events[..last]);
      var before := After(job, events[..last]);
      InFlightStep(job, before.state, events[last], before.outputs);
    }
  }

  /** Completion is requested at most once, with ascending parts, and with every part when there is a worker. */
  lemma {:induction false} CompletionIsRequestedOnceAndWhole<T>(job: Upload<T>, events: seq<Event>)
    ensures RequestsGood(job, After(job, events).state, After(job, events).outputs)
  {
    if events == [] {
      OneEffect(Begin(job).outputs[0]);
    } else {
      var last := |events| - 1;
      CompletionIsRequestedOnceAndWhole(job, events[..last]);
      RunIsGood(job, events[..last]);
      var before := After(job, events[..last]);
      RequestsStep(job, before.state, events[last], before.outputs);
    }
  }

  lemma ProgressBegins<T>(job: Upload<T>)
    ensures ProgressGood(job, Begin(job).state, Shown(Begin(job).outputs))
  {
    OneEffect(Begin(job).outputs[0]);
    PercentGrows(job, [], []);
  }

  /** The percentages shown never fall, stay at most 99, and end with 100 exactly when the upload has finished. */
  lemma {:induction false} ProgressNeverFalls<T>(job: Upload<T>, events: seq<Event>)
    ensures ProgressGood(job, After(job, events).state, Shown(After(job, events).outputs))
  {
    if events == [] {
      ProgressBegins(job);
    } else {
      var last := |events| - 1;
      ProgressNeverFalls(job, events[..last]);
      RunIsGood(job, events[..last]);
      var before := After(job, events[..last]);
      ShownAppend(before.outputs, Step(job, before.state, events[last]).outputs);
      ProgressStep(job, before.state, events[last], Shown(before.outputs));
    }
  }

  // ----- The parts sent, exactly -----

  ghost predicate Exact<T>(job: Upload<T>, parts: seq<Part>) {
    |parts| == |job.chunks| && forall i :: 0 <= i < |job.chunks| ==> parts[i].partNumber == i + 1
  }

  lemma DoneMeansExact<T>(job: Upload<T>, s: State)
    requires Exclusive(job, s) && Covered(job, s) && Unique(s.completed) && InRange(job, s.completed)
    requires job.concurrency >= 1
    requires forall w :: 0 <= w < |s.workers| ==> s.workers[w].Done?
    ensures Exact(job, SortParts(s.completed))
  {
    DoneMeansRecorded(job, s);
    forall k ensures Has(SortParts(s.completed), k) <==> 1 <= k <= |job.chunks| {
      SortHas(s.completed, k);
    }
    AscendingIsCounting(SortParts(s.completed), |job.chunks|);
  }

  ghost predicate AllHonest<T>(job: Upload<T>, events: seq<Event>) {
    forall i :: 0 <= i < |events| ==> Honest(job, events[i])
  }

  lemma {:induction false} HonestRunsStayInRange<T>(job: Upload<T>, events: seq<Event>)
    requires AllHonest(job, events)
    ensures InRange(job, After(job, events).state.completed)
  {
    if events != [] {
      var last := |events| - 1;
      HonestRunsStayInRange(job, events[..last]);
      RunIsGood(job, events[..last]);
      InRangeStep(job, After(job, events[..last]).state, events[last]);
    }
  }

  /** When every status reports only parts of this upload, the completion request has exactly the parts 1..chunkCount. */
  lemma {:induction false} CompletionHasExactlyTheParts<T>(job: Upload<T>, events: seq<Event>)
    requires job.concurrency >= 1 && AllHonest(job, events)
    ensures forall parts :: parts in Requests(After(job, events).outputs) ==> Exact(job, parts)
  {
    if events == [] {
      CompletionIsRequestedOnceAndWhole(job, events);
    } else {
      var last := |events| - 1;
      CompletionHasExactlyTheParts(job, events[..last]);
      RunIsGood(job, events[..last]);
      HonestRunsStayInRange(job, events[..last]);
      var before := After(job, events[..last]);
      RequestedByStep(job, before.state, events[last], before.outputs);
      if before.state.main == Waiting && Step(job, before.state, events[last]).state.main == Completing {
        DoneMeansExact(job, before.state);
      }
    }
  }

  /** Without a worker `Promise.all` has nothing to wait for: completion is requested at once, with no parts. */
  lemma NoWorkersCompleteNothing<T>(job: Upload<T>)
    requires job.concurrency <= 0
    ensures Requests(After(job, [WorkersSettle]).outputs) == [[]]
  {
    var begun := Begin(job);
    assert [WorkersSettle][..0] == [];
    assert After(job, [WorkersSettle][..0]) == begun;
    assert Step(job, begun.state, WorkersSettle).outputs == [CompleteRequest([])];
    var request: Effect<T> := CompleteRequest([]);
    OneEffect(begun.outputs[0]);
    OneEffect(request);
    RequestsAppend(begun.outputs, [request]);
  }

  /** Every completion request of every run has every part. */
  ghost predicate AlwaysWhole<T>(job: Upload<T>) {
    forall events: seq<Event>, r, k | 0 <= r < |Requests(After(job, events).outputs)| && 1 <= k <= |job.chunks| ::
      Has(Requests(After(job, events).outputs)[r], k)
  }

  /** That holds exactly when there is a worker, or nothing to upload. */
  lemma AlwaysWholeExactly<T>(job: Upload<T>)
    ensures AlwaysWhole(job) <==> job.concurrency >= 1 || job.chunks == []
  {
    if job.concurrency >= 1 {
      forall events: seq<Event>, r, k | 0 <= r < |Requests(After(job, events).outputs)| && 1 <= k <= |job.chunks|
        ensures Has(Requests(After(job, events).outputs)[r], k)
      {
        CompletionIsRequestedOnceAndWhole(job, events);
        assert GoodRequest(job, Requests(After(job, events).outputs)[r]);
      }
    } else if job.chunks != [] {
      NoWorkersCompleteNothing(job);
      assert !Has(Requests(After(job, [WorkersSettle]).outputs)[0], 1);
    }
  }

  // ----- What is sent -----

  /** Every request that sends a chunk carries the slice of its part. */
  ghost predicate BodiesGood<T>(job: Upload<T>, log: seq<Effect<T>>) {
    forall effect :: effect in log && effect.Put? ==>
      effect.index < |job.chunks| && effect.body == Slice(job, effect.index + 1)
  }

  /** So the bodies sent for chunks 0..chunkCount - 1, one after the other, are the file. */
  lemma {:induction false} BodiesMakeTheFile<T>(job: Upload<T>, events: seq<Event>)
    ensures BodiesGood(job, After(job, events).outputs)
    ensures Concatenated(job, 1, |job.chunks|) == job.file
  {
    SlicesMakeTheFile(job);
    if events != [] {
      var last := |events| - 1;
      BodiesMakeTheFile(job, events[..last]);
      RunIsGood(job, events[..last]);
      BodiesStep(job, After(job, events[..last]).state, events[last]);
    }
  }

  lemma BodiesStep<T>(job: Upload<T>, s: State, e: Event)
    requires Exclusive(job, s)
    ensures BodiesGood(job, Step(job, s, e).outputs)
  {
    if e.Resume? && e.worker < |s.workers| && s.workers[e.worker].Refreshed? {
      assert Holds(s.workers[e.worker], s.workers[e.worker].index);
    }
  }

  // ----- Every run comes to an end -----

  function Left(job: Job, attempt: nat): nat {
    if attempt < Retries(job) then Retries(job) - attempt else 0
  }

  function Weight(job: Job, worker: Worker): nat {
    match worker
    case Idle => 1
    case Putting(_, attempt) => 3 * Left(job, attempt) + 5
    case Refreshing(_, attempt) => 3 * Left(job, attempt) + 4
    case Refreshed(_, attempt) => 3 * Left(job, attempt) + 3
    case Uploaded(_) => 2
    case Done => 0
    case Failed(_) => 0
  }

  function Weights(job: Job, workers: seq<Worker>): nat {
    if workers == [] then 0 else Weight(job, workers[0]) + Weights(job, workers[1..])
  }

  function MainWeight(main: Main): nat {
    match main
    case Waiting => 2
    case Completing => 1
    case _ => 0
  }

  function Claimable<T>(job: Upload<T>, cursor: nat): nat {
    if cursor >= |job.chunks| then 0 else (|job.chunks| - cursor) * (3 * Retries(job) + 5)
  }

  function Measure<T>(job: Upload<T>, s: State): nat {
    Claimable(job, s.cursor) + Weights(job, s.workers) + MainWeight(s.main)
  }

  lemma {:induction false} WeightsUpdate(job: Job, workers: seq<Worker>, w: nat, worker: Worker)
    requires w < |workers|
    ensures Weights(job, workers[w := worker]) == Weights(job, workers) - Weight(job, workers[w]) + Weight(job, worker)
    decreases w
  {
    if w == 0 {
      assert workers[w := worker][1..] == workers[1..];
    } else {
      assert workers[w := worker][1..] == workers[1..][w - 1 := worker];
      WeightsUpdate(job, workers[1..], w - 1, worker);
    }
  }

  lemma ClaimableShrinks<T>(job: Upload<T>, cursor: nat)
    requires cursor < |job.chunks|
    ensures Claimable(job, cursor) == Claimable(job, cursor + 1) + 3 * Retries(job) + 5
  {
    var n, k := |job.chunks| - cursor, 3 * Retries(job) + 5;
    assert n * k == (n - 1) * k + k;
  }

  lemma MoveUsesUp<T>(job: Upload<T>, s: State, t: State, w: nat)
    requires w < |s.workers| == |t.workers| && t.workers == s.workers[w := t.workers[w]]
    requires t.main == s.main && t.cursor == s.cursor && Weight(job, t.workers[w]) < Weight(job, s.workers[w])
    ensures Measure(job, t) < Measure(job, s)
  {
    WeightsUpdate(job, s.workers, w, t.workers[w]);
  }

  lemma ClaimUsesUp<T>(job: Upload<T>, s: State, w: nat)
    requires w < |s.workers| && s.workers[w].Idle?
    ensures Measure(job, Claim(job, s, w).state) < Measure(job, s)
  {
    if s.cursor >= |job.chunks| {
      MoveUsesUp(job, s, Claim(job, s, w).state, w);
    } else {
      ClaimableShrinks(job, s.cursor);
      WeightsUpdate(job, s.workers, w, Putting(s.cursor, 0));
    }
  }

  lemma WorkerUsesUp<T>(job: Upload<T>, s: State, e: Event)
    requires !e.WorkersSettle? && !e.CompleteReturns? && e.worker < |s.workers|
    ensures var next := StepWorker(job, s, e);
            if next.state == s then next.outputs == [] else Measure(job, next.state) < Measure(job, s)
  {
    var w := e.worker;
    var t := StepWorker(job, s, e).state;
    if e.Resume? && s.workers[w].Idle? {
      ClaimUsesUp(job, s, w);
    } else if t.workers[w] != s.workers[w] {
      MoveUsesUp(job, s, t, w);
    }
  }

  /** A step that changes anything uses up some of the measure. */
  lemma StepsUseUp<T>(job: Upload<T>, s: State, e: Event)
    ensures var next := Step(job, s, e);
            if next.state == s then next.outputs == [] else Measure(job, next.state) < Measure(job, s)
  {
    if !e.WorkersSettle? && !e.CompleteReturns? && e.worker < |s.workers| {
      WorkerUsesUp(job, s, e);
    }
  }

  /** How many of the events changed anything. */
  function Changes<T>(job: Upload<T>, events: seq<Event>): nat {
    if events == [] then 0
    else
      var s := After(job, events[..|events| - 1]).state;
      Changes(job, events[..|events| - 1]) + if Step(job, s, events[|events| - 1]).state == s then 0 else 1
  }

  /** However the events come, no more of them change anything than the measure at the beginning. */
  lemma {:induction false} RunsEnd<T>(job: Upload<T>, events: seq<Event>)
    ensures Changes(job, events) + Measure(job, After(job, events).state) <= Measure(job, Begin(job).state)
  {
    if events != [] {
      var last := |events| - 1;
      RunsEnd(job, events[..last]);
      StepsUseUp(job, After(job, events[..last]).state, events[last]);
    }
  }

  /** An upload that no event can change any more has finished or has been rejected. */
  lemma NoDeadlock<T>(job: Upload<T>, s: State)
    requires forall e :: Step(job, s, e).state == s
    ensures s.main == Finished || s.main == Rejected
  {
    assert Step(job, s, CompleteReturns(true)).state == s;
    assert Step(job, s, WorkersSettle).state == s;
    forall w | 0 <= w < |s.workers| ensures s.workers[w].Done? || s.workers[w].Failed? {
      assert Step(job, s, Resume(w)).state == s;
      assert Step(job, s, PutFails(w)).state == s;
      assert Step(job, s, StatusFails(w)).state == s;
      assert s.workers[w := Done][w] == Done && s.workers[w := Idle][w] == Idle;
    }
  }
}
