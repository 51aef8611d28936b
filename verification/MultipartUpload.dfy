/**
 The multipart upload (packages-web/angular-storage/src/multipart-upload.executor.ts:42-61, 91-221):
 several workers share a cursor into the sorted chunks and a map of completed parts, and take turns at
 every `await`.  A run is a sequence of events; an event that is not possible in a state changes nothing.
 */
module MultipartUpload {
  import opened Wrappers
  import opened Machines

  datatype Entry<D> = Entry(partNumber: int, detail: D)

  /** A completed part with its entity tag, if the server gave one. */
  type Part = Entry<Option<string>>

  /** A chunk to upload, with its URL. */
  type Chunk = Entry<string>

  /** What one upload works on; `chunks` are those of the server in ascending order of part number. */
  datatype Job<T> = Job(file: seq<T>, chunkSize: nat, concurrency: int, retryAttempts: int, chunks: seq<Chunk>)

  // ----- The map of completed parts, in insertion order -----

  predicate Has<D>(parts: seq<Entry<D>>, number: int) {
    parts != [] && (parts[0].partNumber == number || Has(parts[1..], number))
  }

  function Record<D>(parts: seq<Entry<D>>, part: Entry<D>): seq<Entry<D>> {
    if parts == [] then [part]
    else if parts[0].partNumber == part.partNumber then [part] + parts[1..]
    else [parts[0]] + Record(parts[1..], part)
  }

  function RecordAll<D>(parts: seq<Entry<D>>, reported: seq<Entry<D>>): seq<Entry<D>>
    decreases |reported|
  {
    if reported == [] then parts else RecordAll(Record(parts, reported[0]), reported[1..])
  }

  ghost predicate Unique<D>(parts: seq<Entry<D>>) {
    forall i, j :: 0 <= i < j < |parts| ==> parts[i].partNumber != parts[j].partNumber
  }

  lemma {:induction false} HasSome<D>(parts: seq<Entry<D>>, number: int)
    ensures Has(parts, number) <==> exists i :: 0 <= i < |parts| && parts[i].partNumber == number
  {
    if parts != [] {
      HasSome(parts[1..], number);
      if Has(parts[1..], number) {
        var i :| 0 <= i < |parts[1..]| && parts[1..][i].partNumber == number;
        assert parts[i + 1].partNumber == number;
      }
      if i :| 0 <= i < |parts| && parts[i].partNumber == number {
        if i > 0 {
          assert parts[1..][i - 1].partNumber == number;
        }
      }
    }
  }

  lemma {:induction false} RecordHas<D>(parts: seq<Entry<D>>, part: Entry<D>, number: int)
    ensures Has(Record(parts, part), number) <==> Has(parts, number) || number == part.partNumber
  {
    if parts != [] && parts[0].partNumber != part.partNumber {
      RecordHas(parts[1..], part, number);
    }
  }

  lemma {:induction false} RecordKeepsUnique<D>(parts: seq<Entry<D>>, part: Entry<D>)
    requires Unique(parts)
    ensures Unique(Record(parts, part))
    decreases |parts|
  {
    if parts != [] && parts[0].partNumber != part.partNumber {
      var rest := Record(parts[1..], part);
      RecordKeepsUnique(parts[1..], part);
      forall j | 0 <= j < |rest| ensures rest[j].partNumber != parts[0].partNumber {
        HasSome(rest, rest[j].partNumber);
        RecordHas(parts[1..], part, rest[j].partNumber);
        HasSome(parts[1..], rest[j].partNumber);
      }
    }
  }

  lemma {:induction false} RecordAllHas<D>(parts: seq<Entry<D>>, reported: seq<Entry<D>>, number: int)
    ensures Has(RecordAll(parts, reported), number) <==> Has(parts, number) || Has(reported, number)
    decreases |reported|
  {
    if reported != [] {
      RecordHas(parts, reported[0], number);
      RecordAllHas(Record(parts, reported[0]), reported[1..], number);
    }
  }

  lemma {:induction false} RecordAllKeepsUnique<D>(parts: seq<Entry<D>>, reported: seq<Entry<D>>)
    requires Unique(parts)
    ensures Unique(RecordAll(parts, reported))
    decreases |reported|
  {
    if reported != [] {
      RecordKeepsUnique(parts, reported[0]);
      RecordAllKeepsUnique(Record(parts, reported[0]), reported[1..]);
    }
  }

  // ----- Sorting by part number -----

  function InsertPart<D>(part: Entry<D>, parts: seq<Entry<D>>): seq<Entry<D>> {
    if parts == [] then [part]
    else if parts[0].partNumber <= part.partNumber then [parts[0]] + InsertPart(part, parts[1..])
    else [part] + parts
  }

  /** The order in which parts are sent to be assembled. */
  function SortParts<D>(parts: seq<Entry<D>>): seq<Entry<D>> {
    if parts == [] then [] else InsertPart(parts[|parts| - 1], SortParts(parts[..|parts| - 1]))
  }

  ghost predicate Ascending<D>(parts: seq<Entry<D>>) {
    forall i, j :: 0 <= i < j < |parts| ==> parts[i].partNumber < parts[j].partNumber
  }

  lemma {:induction false} InsertHas<D>(part: Entry<D>, parts: seq<Entry<D>>, number: int)
    ensures Has(InsertPart(part, parts), number) <==> Has(parts, number) || number == part.partNumber
  {
    if parts != [] {
      InsertHas(part, parts[1..], number);
    }
  }

  lemma {:induction false} InsertKeepsAscending<D>(part: Entry<D>, parts: seq<Entry<D>>)
    requires Ascending(parts) && !Has(parts, part.partNumber)
    ensures Ascending(InsertPart(part, parts))
    decreases |parts|
  {
    if parts != [] && parts[0].partNumber <= part.partNumber {
      var rest := InsertPart(part, parts[1..]);
      InsertKeepsAscending(part, parts[1..]);
      forall j | 0 <= j < |rest| ensures parts[0].partNumber < rest[j].partNumber {
        HasSome(rest, rest[j].partNumber);
        InsertHas(part, parts[1..], rest[j].partNumber);
        HasSome(parts[1..], rest[j].partNumber);
      }
    }
  }

  lemma {:induction false} SortHas<D>(parts: seq<Entry<D>>, number: int)
    ensures Has(SortParts(parts), number) <==> Has(parts, number)
    decreases |parts|
  {
    if parts != [] {
      var last := |parts| - 1;
      SortHas(parts[..last], number);
      InsertHas(parts[last], SortParts(parts[..last]), number);
      HasSome(parts, number);
      HasSome(parts[..last], number);
      if Has(parts[..last], number) {
        var i :| 0 <= i < last && parts[..last][i].partNumber == number;
        assert parts[i].partNumber == number;
      }
      if i :| 0 <= i < |parts| && parts[i].partNumber == number {
        if i < last {
          assert parts[..last][i].partNumber == number;
        }
      }
    }
  }

  lemma {:induction false} SortAscends<D>(parts: seq<Entry<D>>)
    requires Unique(parts)
    ensures Ascending(SortParts(parts))
    decreases |parts|
  {
    if parts != [] {
      var last := |parts| - 1;
      SortAscends(parts[..last]);
      SortHas(parts[..last], parts[last].partNumber);
      HasSome(parts[..last], parts[last].partNumber);
      InsertKeepsAscending(parts[last], SortParts(parts[..last]));
    }
  }

  /** Ascending parts with exactly the numbers 1..n are n parts, numbered in order. */
  lemma {:induction false} AscendingIsCounting<D>(parts: seq<Entry<D>>, n: nat)
    requires Ascending(parts) && forall k :: Has(parts, k) <==> 1 <= k <= n
    ensures |parts| == n && forall i :: 0 <= i < n ==> parts[i].partNumber == i + 1
    decreases n
  {
    var last := |parts| - 1;
    assert parts != [] ==> Has(parts, parts[0].partNumber);
    if n > 0 {
      HasSome(parts, n);
      var i :| 0 <= i < |parts| && parts[i].partNumber == n;
      HasSome(parts, parts[last].partNumber);
      assert i == last;
      var shorter := parts[..last];
      forall k ensures Has(shorter, k) <==> 1 <= k <= n - 1 {
        HasSome(parts, k);
        HasSome(shorter, k);
        if Has(parts, k) && k != n {
          var j :| 0 <= j < |parts| && parts[j].partNumber == k;
          assert shorter[j].partNumber == k;
        }
        if Has(shorter, k) {
          var j :| 0 <= j < last && shorter[j].partNumber == k;
          assert parts[j].partNumber == k && k < n;
        }
      }
      AscendingIsCounting(shorter, n - 1);
    }
  }

  // ----- Slices -----

  function ChunkCount(size: nat, chunkSize: nat): nat
    requires chunkSize > 0
  {
    (size + chunkSize - 1) / chunkSize
  }

  function Min(a: int, b: int): int {
    if a <= b then a else b
  }

  function Start(job: Job, number: int): int {
    (number - 1) * job.chunkSize
  }

  /** The bytes of one part, as `file.slice` clamps them. */
  function Slice<T>(job: Job<T>, number: int): seq<T>
    requires number >= 1
  {
    var start := Min(Start(job, number), |job.file|);
    job.file[start..Min(start + job.chunkSize, |job.file|)]
  }

  /** The chunks of a job are numbered 1..chunkCount, in order. */
  ghost predicate CountsUp(job: Job) {
    job.chunkSize > 0 && |job.chunks| == ChunkCount(|job.file|, job.chunkSize) &&
    forall i :: 0 <= i < |job.chunks| ==> job.chunks[i].partNumber == i + 1
  }

  function Concatenated<T>(job: Job<T>, number: int, last: int): seq<T>
    requires number >= 1
    decreases last - number
  {
    if number > last then [] else Slice(job, number) + Concatenated(job, number + 1, last)
  }

  lemma CountCovers(size: nat, chunkSize: nat)
    requires chunkSize > 0
    ensures size <= ChunkCount(size, chunkSize) * chunkSize < size + chunkSize
  {
    var n, d := ChunkCount(size, chunkSize), size + chunkSize - 1;
    assert d == n * chunkSize + d % chunkSize;
  }

  lemma NextStart(job: Job, number: int)
    ensures Start(job, number + 1) == Start(job, number) + job.chunkSize
  {
  }

  lemma {:induction false} ConcatenatedFrom<T>(job: Job<T>, number: int, last: int)
    requires 1 <= number <= last + 1 && Start(job, last + 1) >= |job.file|
    ensures Concatenated(job, number, last) == job.file[Min(Start(job, number), |job.file|)..]
    decreases last - number
  {
    if number <= last {
      NextStart(job, number);
      ConcatenatedFrom(job, number + 1, last);
      StartIsNatural(job, number);
    }
  }

  lemma StartIsNatural(job: Job, number: int)
    requires number >= 1
    ensures Start(job, number) >= 0
  {
  }

  /** The slices of parts 1..chunkCount, one after the other, are the file. */
  lemma SlicesMakeTheFile<T>(job: Job<T>)
    requires job.chunkSize > 0
    ensures Concatenated(job, 1, ChunkCount(|job.file|, job.chunkSize)) == job.file
  {
    CountCovers(|job.file|, job.chunkSize);
    ConcatenatedFrom(job, 1, ChunkCount(|job.file|, job.chunkSize));
  }

  /** The job for the chunks a server lists in any order. */
  function JobFor<T>(file: seq<T>, chunkSize: nat, concurrency: int, retryAttempts: int, listed: seq<Chunk>): Job<T> {
    Job(file, chunkSize, concurrency, retryAttempts, SortParts(listed))
  }

  /** Chunks numbered exactly 1..chunkCount, in any order, make a job whose chunks count up. */
  lemma ListedChunksCountUp<T>(file: seq<T>, chunkSize: nat, concurrency: int, retryAttempts: int, listed: seq<Chunk>)
    requires chunkSize > 0 && Unique(listed)
    requires forall k :: Has(listed, k) <==> 1 <= k <= ChunkCount(|file|, chunkSize)
    ensures CountsUp(JobFor(file, chunkSize, concurrency, retryAttempts, listed))
  {
    SortAscends(listed);
    forall k ensures Has(SortParts(listed), k) <==> 1 <= k <= ChunkCount(|file|, chunkSize) {
      SortHas(listed, k);
    }
    AscendingIsCounting(SortParts(listed), ChunkCount(|file|, chunkSize));
  }

  // ----- Progress -----

  /** The bytes of the completed parts among the first `count` chunks. */
  function CompletedBytes(job: Job, completed: seq<Part>, count: nat): int
    requires count <= |job.chunks|
  {
    if count == 0 then 0
    else
      var number := job.chunks[count - 1].partNumber;
      CompletedBytes(job, completed, count - 1) +
      if Has(completed, number) then Min(job.chunkSize, |job.file| - Start(job, number)) else 0
  }

  function Round(x: real): int {
    (x + 0.5).Floor
  }

  /** The percentage shown; an empty file has no chunks, so none is shown for it. */
  function Percent(job: Job, completed: seq<Part>): int {
    var bytes := CompletedBytes(job, completed, |job.chunks|);
    if |job.file| == 0 then 0 else Min(99, Round(bytes as real / |job.file| as real * 100.0))
  }

  // ----- The workers -----

  /** A job with the part numbers 1..chunkCount. */
  type Upload<T> = job: Job<T> | CountsUp(job) ghost witness Job([], 1, 0, 0, [])

  datatype Worker =
    | Idle
    | Putting(index: nat, attempt: nat)
    | Refreshing(index: nat, attempt: nat)
    | Refreshed(index: nat, attempt: nat)
    | Uploaded(index: nat)
    | Done
    | Failed(index: nat)

  datatype Main = Waiting | Completing | Finished | Rejected

  datatype State = State(cursor: nat, completed: seq<Part>, workers: seq<Worker>, main: Main)

  /** What a step does to the outside; `Claimed` marks the moment a worker takes a chunk off the cursor. */
  datatype Effect<T> =
    | Claimed(index: nat)
    | Put(index: nat, body: seq<T>)
    | PutSettled(index: nat)
    | Progress(percent: int)
    | CompleteRequest(parts: seq<Part>)

  /**
   What the event loop does next: lets a worker run to its next `await`, settles one of the requests it
   waits for, settles `Promise.all`, or answers the completion request.
   */
  datatype Event =
    | Resume(worker: nat)
    | PutSucceeds(worker: nat, etag: Option<string>)
    | PutFails(worker: nat)
    | StatusFails(worker: nat)
    | StatusReturns(worker: nat, reported: Option<seq<Part>>)
    | WorkersSettle
    | CompleteReturns(ok: bool)

  function Idlers(count: nat): (workers: seq<Worker>)
    ensures |workers| == count && forall w :: 0 <= w < count ==> workers[w] == Idle
  {
    if count == 0 then [] else Idlers(count - 1) + [Idle]
  }

  function WorkerCount(job: Job): nat {
    if job.concurrency <= 0 then 0 else Min(job.concurrency, |job.chunks|)
  }

  function Begin<T>(job: Upload<T>): Stepped<State, Effect<T>> {
    Stepped(State(0, [], Idlers(WorkerCount(job)), Waiting), [Progress(0)])
  }

  function NumberAt<T>(job: Upload<T>, index: nat): (number: int)
    ensures number == index + 1
  {
    if index < |job.chunks| then job.chunks[index].partNumber else index + 1
  }

  function With(s: State, w: nat, worker: Worker): State
    requires w < |s.workers|
  {
    s.(workers := s.workers[w := worker])
  }

  /** Sends one chunk. */
  function StartPut<T>(job: Upload<T>, s: State, w: nat, index: nat, attempt: nat): Stepped<State, Effect<T>>
    requires w < |s.workers|
  {
    Stepped(With(s, w, Putting(index, attempt)), [Put(index, Slice(job, NumberAt(job, index)))])
  }

  /** One turn of a worker's loop: takes the next chunk, or finds none left. */
  function Claim<T>(job: Upload<T>, s: State, w: nat): Stepped<State, Effect<T>>
    requires w < |s.workers|
  {
    if s.cursor >= |job.chunks| then Stepped(With(s, w, Done), [])
    else
      var index := s.cursor;
      var taken := s.(cursor := index + 1);
      if Has(s.completed, NumberAt(job, index)) then Stepped(taken, [Claimed(index)])
      else
        var put := StartPut(job, taken, w, index, 0);
        Stepped(put.state, [Claimed(index)] + put.outputs)
  }

  /** After a failed request and a look at the server's status. */
  function Decide<T>(job: Upload<T>, s: State, w: nat, index: nat, attempt: nat): Stepped<State, Effect<T>>
    requires w < |s.workers|
  {
    if Has(s.completed, NumberAt(job, index)) then Stepped(With(s, w, Uploaded(index)), [])
    else if attempt >= job.retryAttempts then Stepped(With(s, w, Failed(index)), [])
    else StartPut(job, s, w, index, attempt + 1)
  }

  function Continue<T>(job: Upload<T>, s: State, w: nat): Stepped<State, Effect<T>>
    requires w < |s.workers|
  {
    match s.workers[w]
    case Idle => Claim(job, s, w)
    case Refreshed(index, attempt) => Decide(job, s, w, index, attempt)
    case Uploaded(_) => Stepped(With(s, w, Idle), [Progress(Percent(job, s.completed))])
    case _ => Stepped(s, [])
  }

  function SettlePut<T>(job: Upload<T>, s: State, w: nat, success: bool, etag: Option<string>): Stepped<State, Effect<T>>
    requires w < |s.workers|
  {
    match s.workers[w]
    case Putting(index, attempt) =>
      if success then
        var part: Part := Entry(NumberAt(job, index), etag);
        Stepped(With(s, w, Uploaded(index)).(completed := Record(s.completed, part)), [PutSettled(index)])
      else Stepped(With(s, w, Refreshing(index, attempt)), [PutSettled(index)])
    case _ => Stepped(s, [])
  }

  /** `reported` is none when the status request was refused, which counts as no news; a failed one fails the worker. */
  function SettleStatus<T>(s: State, w: nat, success: bool, reported: Option<seq<Part>>): Stepped<State, Effect<T>>
    requires w < |s.workers|
  {
    match s.workers[w]
    case Refreshing(index, attempt) =>
      if success then
        var completed := if reported.Some? then RecordAll(s.completed, reported.value) else s.completed;
        Stepped(With(s, w, Refreshed(index, attempt)).(completed := completed), [])
      else Stepped(With(s, w, Failed(index)), [])
    case _ => Stepped(s, [])
  }

  /** `Promise.all` rejects as soon as a worker has failed and resolves when all are done. */
  function SettleAll<T>(s: State): Stepped<State, Effect<T>> {
    if s.main != Waiting then Stepped(s, [])
    else if exists w :: 0 <= w < |s.workers| && s.workers[w].Failed? then Stepped(s.(main := Rejected), [])
    else if forall w :: 0 <= w < |s.workers| ==> s.workers[w].Done? then
      Stepped(s.(main := Completing), [CompleteRequest(SortParts(s.completed))])
    else Stepped(s, [])
  }

  function SettleCompletion<T>(s: State, ok: bool): Stepped<State, Effect<T>> {
    if s.main != Completing then Stepped(s, [])
    else if ok then Stepped(s.(main := Finished), [Progress(100)])
    else Stepped(s.(main := Rejected), [])
  }

  function Step<T>(job: Upload<T>, s: State, e: Event): Stepped<State, Effect<T>> {
    match e
    case WorkersSettle => SettleAll(s)
    case CompleteReturns(ok) => SettleCompletion(s, ok)
    case _ => if e.worker < |s.workers| then StepWorker(job, s, e) else Stepped(s, [])
  }

  function StepWorker<T>(job: Upload<T>, s: State, e: Event): Stepped<State, Effect<T>>
    requires !e.WorkersSettle? && !e.CompleteReturns? && e.worker < |s.workers|
  {
    match e
    case Resume(w) => Continue(job, s, w)
    case PutSucceeds(w, etag) => SettlePut(job, s, w, true, etag)
    case PutFails(w) => SettlePut(job, s, w, false, None)
    case StatusFails(w) => SettleStatus(s, w, false, None)
    case StatusReturns(w, reported) => SettleStatus(s, w, true, reported)
  }

  /** The state and the effects after any events. */
  function After<T>(job: Upload<T>, events: seq<Event>): Stepped<State, Effect<T>> {
    if events == [] then Begin(job)
    else
      var last := |events| - 1;
      var before := After(job, events[..last]);
      var next := Step(job, before.state, events[last]);
      Stepped(next.state, before.outputs + next.outputs)
  }
}
