/**
 The multipart executor as an object: the workers' turns advance a shared cursor and fill a shared map
 (packages-web/angular-storage/src/multipart-upload.executor.ts:91-151, 167-189 and 207-221).
 `MultipartRuns` says what holds over all its runs.
 */
module MultipartExecutors {
  import opened Wrappers
  import opened Machines
  import M = MultipartUpload

  type Log<T> = Stepped<M.State, M.Effect<T>>

  /** A step of the executor after the effects so far. */
  function Then<T>(emitted: seq<M.Effect<T>>, step: Log<T>): Log<T> {
    Stepped(step.state, emitted + step.outputs)
  }

  /** The reduction of `emitProgress`. */
  method SumCompleted<T>(job: M.Job<T>, completed: seq<M.Part>) returns (total: int)
    ensures total == M.CompletedBytes(job, completed, |job.chunks|)
  {
    total := 0;
    for i := 0 to |job.chunks|
      invariant total == M.CompletedBytes(job, completed, i)
    {
      var number := job.chunks[i].partNumber;
      if M.Has(completed, number) {
        total := total + M.Min(job.chunkSize, |job.file| - M.Start(job, number));
      }
    }
  }

  class MultipartUploadExecutor<T> {
    const job: M.Upload<T>
    var cursor: nat
    var completed: seq<M.Part>
    var workers: seq<M.Worker>
    var main: M.Main
    ghost var emitted: seq<M.Effect<T>>

    ghost function State(): M.State
      reads this
    {
      M.State(cursor, completed, workers, main)
    }

    ghost function Trace(): Log<T>
      reads this
    {
      Stepped(State(), emitted)
    }

    constructor (job: M.Upload<T>)
      ensures this.job == job && Trace() == M.Begin(job)
    {
      this.job := job;
      cursor, completed, main := 0, [], M.Waiting;
      workers := M.Idlers(M.WorkerCount(job));
      emitted := [M.Progress(0)];
    }

    /** Sends one chunk for a worker. */
    method StartPut(w: nat, index: nat, attempt: nat)
      requires w < |workers|
      modifies this`workers, this`emitted
      ensures Trace() == Then(old(emitted), M.StartPut(job, old(State()), w, index, attempt))
    {
      var start := M.Min(M.Start(job, M.NumberAt(job, index)), |job.file|);
      M.StartIsNatural(job, M.NumberAt(job, index));
      var body := job.file[start..M.Min(start + job.chunkSize, |job.file|)];
      workers := workers[w := M.Putting(index, attempt)];
      emitted := emitted + [M.Put(index, body)];
    }

    /** One turn of a worker's loop. */
    method Claim(w: nat)
      requires w < |workers|
      modifies this`cursor, this`workers, this`emitted
      ensures Trace() == Then(old(emitted), M.Claim(job, old(State()), w))
    {
      if cursor >= |job.chunks| {
        workers := workers[w := M.Done];
        assert emitted + [] == emitted;
        return;
      }
      var index := cursor;
      cursor := cursor + 1;
      emitted := emitted + [M.Claimed(index)];
      if M.Has(completed, M.NumberAt(job, index)) {
        return;
      }
      StartPut(w, index, 0);
    }

    /** Whether to go on, to give up or to try again, once the server's status is known. */
    method Decide(w: nat, index: nat, attempt: nat)
      requires w < |workers|
      modifies this`workers, this`emitted
      ensures Trace() == Then(old(emitted), M.Decide(job, old(State()), w, index, attempt))
    {
      assert emitted + [] == emitted;
      if M.Has(completed, M.NumberAt(job, index)) {
        workers := workers[w := M.Uploaded(index)];
      } else if attempt >= job.retryAttempts {
        workers := workers[w := M.Failed(index)];
      } else {
        StartPut(w, index, attempt + 1);
      }
    }

    method EmitProgress()
      modifies this`emitted
      ensures emitted == old(emitted) + [M.Progress(M.Percent(job, completed))]
    {
      var bytes := SumCompleted(job, completed);
      var percent := if |job.file| == 0 then 0 else M.Min(99, M.Round(bytes as real / |job.file| as real * 100.0));
      emitted := emitted + [M.Progress(percent)];
    }

    /** Lets a worker run to its next `await`. */
    method Resume(w: nat)
      requires w < |workers|
      modifies this
      ensures Trace() == Then(old(emitted), M.Continue(job, old(State()), w))
    {
      match workers[w]
      case Idle => Claim(w);
      case Refreshed(index, attempt) => Decide(w, index, attempt);
      case Uploaded(_) =>
        EmitProgress();
        workers := workers[w := M.Idle];
      case _ => assert emitted + [] == emitted;
    }

    /** The request that sends a chunk is answered. */
    method PutSettles(w: nat, success: bool, etag: Option<string>)
      requires w < |workers|
      modifies this
      ensures Trace() == Then(old(emitted), M.SettlePut(job, old(State()), w, success, etag))
    {
      match workers[w]
      case Putting(index, attempt) =>
        if success {
          completed := M.Record(completed, M.Entry(M.NumberAt(job, index), etag));
          workers := workers[w := M.Uploaded(index)];
        } else {
          workers := workers[w := M.Refreshing(index, attempt)];
        }
        emitted := emitted + [M.PutSettled(index)];
      case _ => assert emitted + [] == emitted;
    }

    /** The loop of `refreshCompletedParts`. */
    method RecordReported(reported: seq<M.Part>)
      modifies this`completed
      ensures completed == M.RecordAll(old(completed), reported)
    {
      for i := 0 to |reported|
        invariant M.RecordAll(completed, reported[i..]) == M.RecordAll(old(completed), reported)
      {
        assert reported[i..][1..] == reported[i + 1..];
        completed := M.Record(completed, reported[i]);
      }
    }

    /** The status request is answered. */
    method StatusSettles(w: nat, success: bool, reported: Option<seq<M.Part>>)
      requires w < |workers|
      modifies this
      ensures Trace() == Then(old(emitted), M.SettleStatus(old(State()), w, success, reported))
    {
      assert emitted + [] == emitted;
      match workers[w]
      case Refreshing(index, attempt) =>
        if success {
          if reported.Some? {
            RecordReported(reported.value);
          }
          workers := workers[w := M.Refreshed(index, attempt)];
        } else {
          workers := workers[w := M.Failed(index)];
        }
      case _ =>
    }

    /** `Promise.all` over the workers settles, if it can. */
    method WorkersSettle()
      modifies this`main, this`emitted
      ensures Trace() == Then(old(emitted), M.SettleAll(old(State())))
    {
      assert emitted + [] == emitted;
      if main != M.Waiting {
        return;
      }
      var failed, done := false, true;
      for w := 0 to |workers|
        invariant failed <==> exists v :: 0 <= v < w && workers[v].Failed?
        invariant done <==> forall v :: 0 <= v < w ==> workers[v].Done?
      {
        failed := failed || workers[w].Failed?;
        done := done && workers[w].Done?;
      }
      if failed {
        main := M.Rejected;
      } else if done {
        main := M.Completing;
        emitted := emitted + [M.CompleteRequest(M.SortParts(completed))];
      }
    }

    method CompleteReturns(ok: bool)
      modifies this`main, this`emitted
      ensures Trace() == Then(old(emitted), M.SettleCompletion(old(State()), ok))
    {
      assert emitted + [] == emitted;
      if main == M.Completing {
        if ok {
          main := M.Finished;
          emitted := emitted + [M.Progress(100)];
        } else {
          main := M.Rejected;
        }
      }
    }

    /** One turn of the event loop. */
    method Handle(e: M.Event)
      modifies this
      ensures Trace() == Then(old(emitted), M.Step(job, old(State()), e))
    {
      assert emitted + [] == emitted;
      match e
      case WorkersSettle => WorkersSettle();
      case CompleteReturns(ok) => CompleteReturns(ok);
      case Resume(w) => if w < |workers| { Resume(w); }
      case PutSucceeds(w, etag) => if w < |workers| { PutSettles(w, true, etag); }
      case PutFails(w) => if w < |workers| { PutSettles(w, false, None); }
      case StatusFails(w) => if w < |workers| { StatusSettles(w, false, None); }
      case StatusReturns(w, reported) => if w < |workers| { StatusSettles(w, true, reported); }
    }

    /** Any run of turns leaves the object in the state that `After` gives. */
    method HandleAll(events: seq<M.Event>)
      requires Trace() == M.Begin(job)
      modifies this
      ensures Trace() == M.After(job, events)
    {
      assert events[..0] == [];
      for i := 0 to |events|
        invariant Trace() == M.After(job, events[..i])
      {
        assert events[..i + 1][..i] == events[..i];
        Handle(events[i]);
      }
      assert events[..|events|] == events;
    }
  }
}
