/** The queue at work: emitting threads, worker threads, flushing threads and
    the database row, as a machine whose steps interleave freely. The write
    lock serialises everything between taking a request and completing it;
    emits and guard drops need only the queue's own short critical section. */
module PersistSystem {
  import opened Basics
  import opened PersistQueue

  datatype Job = Untaken | InFlight(request: Request) | Written(request: Request, ok: bool)

  datatype WriteLock = Free | ByWorker(worker: nat, job: Job) | ByFlush(job: Job)

  /** A worker thread loops, unwinds after a panic, or returns normally; in
      the last two stages its exit guard has yet to drop. */
  datatype Stage = Looping | Unwinding | Returning | Gone
  datatype Worker = Worker(armed: bool, stage: Stage)

  datatype Emitted = Emitted(id: Id, revision: nat)

  /** What happened to selections, in order. A failed flush takes the report
      that `complete` asks for and shows nothing. */
  datatype Report = Queued(id: Id) | Persisted(id: Id) | Toasted(id: Id) | Silenced(id: Id)

  /** `emits`, `handedOut` and `reports` are histories. `torn` is the id of a
      write that landed and whose `complete` has not run since: while the
      writer still holds the lock, or forever if it died in between. */
  datatype System = System(
    queue: QueueState,
    row: Option<Id>,
    lock: WriteLock,
    workers: seq<Worker>,
    torn: Option<Id>,
    emits: seq<Emitted>,
    handedOut: seq<nat>,
    reports: seq<Report>)

  datatype Event =
    | Emit(id: Id, revision: nat)
    | Acquire(worker: nat)
    | Take
    | Write(ok: bool)
    | Finish
    | Panic(worker: nat)
    | DropGuard(worker: nat)
    | Flush
    | FlushPanic

  /** Startup: the queue is seeded with the row's value when the restored
      layout still knows that workspace. */
  function Start(row: Option<Id>, seeded: bool): System {
    var queue := if seeded && row.Some? then AfterSeed(EMPTY, row.value) else EMPTY;
    System(queue, row, Free, [], None, [], [], [])
  }

  function WithJob(lock: WriteLock, job: Job): WriteLock
    requires !lock.Free?
  {
    if lock.ByWorker? then lock.(job := job) else ByFlush(job)
  }

  function EmitStep(s: System, id: Id, revision: nat): System {
    if id == "" then s
    else s.(
      queue := AfterEnqueue(s.queue, id, revision),
      workers := if StartsWorker(s.queue, id, revision) then s.workers + [Worker(true, Looping)] else s.workers,
      emits := s.emits + [Emitted(id, revision)],
      reports := if Queues(s.queue, id, revision) then s.reports + [Queued(id)] else s.reports)
  }

  function TakeStep(s: System): System {
    if !(s.lock.ByWorker? && s.lock.job.Untaken? && s.lock.worker < |s.workers|) then s
    else if s.queue.pending.Some? then
      var request := s.queue.pending.value;
      s.(queue := AfterTake(s.queue), lock := WithJob(s.lock, InFlight(request)),
         handedOut := s.handedOut + [request.generation])
    else
      s.(queue := AfterTake(s.queue), lock := Free,
         workers := s.workers[s.lock.worker := Worker(false, Returning)])
  }

  /** A failed write leaves the row untouched. */
  function WriteStep(s: System, ok: bool): System {
    if s.lock.Free? || !s.lock.job.InFlight? then s
    else
      var request := s.lock.job.request;
      var written := s.(lock := WithJob(s.lock, Written(request, ok)));
      if ok then written.(row := Some(request.workspaceId), torn := Some(request.workspaceId)) else written
  }

  function Outcome(s: System, request: Request, ok: bool): seq<Report> {
    if ok then [Persisted(request.workspaceId)]
    else if !Reports(s.queue, request, ok) then []
    else if s.lock.ByWorker? then [Toasted(request.workspaceId)]
    else [Silenced(request.workspaceId)]
  }

  function FinishStep(s: System): System {
    if s.lock.Free? || !s.lock.job.Written? then s
    else
      var Written(request, ok) := s.lock.job;
      s.(queue := AfterComplete(s.queue, request, ok), lock := Free,
         torn := if ok then None else s.torn, reports := s.reports + Outcome(s, request, ok))
  }

  /** A panicking worker releases the lock at once; its guard drops later. */
  function PanicStep(s: System, worker: nat): System {
    if !(worker < |s.workers| && s.workers[worker].stage.Looping?) then s
    else s.(
      workers := s.workers[worker := s.workers[worker].(stage := Unwinding)],
      lock := if s.lock.ByWorker? && s.lock.worker == worker then Free else s.lock)
  }

  function DropGuardStep(s: System, worker: nat): System {
    if !(worker < |s.workers| && (s.workers[worker].stage.Unwinding? || s.workers[worker].stage.Returning?)) then s
    else s.(
      queue := if s.workers[worker].armed then AfterWorkerAbort(s.queue) else s.queue,
      workers := s.workers[worker := Worker(false, Gone)])
  }

  function FlushStep(s: System): System {
    if !s.lock.Free? || !FlushHasWork(s.queue) then s
    else
      var request := FlushRequest(s.queue);
      s.(queue := AfterTakeForFlush(s.queue), lock := ByFlush(InFlight(request)),
         handedOut := s.handedOut + [request.generation])
  }

  /** One step. An event that is not enabled changes nothing. */
  function Next(s: System, e: Event): System {
    match e
    case Emit(id, revision) => EmitStep(s, id, revision)
    case Acquire(w) =>
      if s.lock.Free? && w < |s.workers| && s.workers[w].stage.Looping? then s.(lock := ByWorker(w, Untaken)) else s
    case Take => TakeStep(s)
    case Write(ok) => WriteStep(s, ok)
    case Finish => FinishStep(s)
    case Panic(w) => PanicStep(s, w)
    case DropGuard(w) => DropGuardStep(s, w)
    case Flush => FlushStep(s)
    case FlushPanic => if s.lock.ByFlush? then s.(lock := Free) else s
  }

  function Run(s: System, es: seq<Event>): System
    decreases |es|
  {
    if es == [] then s else Next(Run(s, es[..|es| - 1]), es[|es| - 1])
  }

  lemma {:induction false} RunConcat(s: System, es: seq<Event>, fs: seq<Event>)
    ensures Run(s, es + fs) == Run(Run(s, es), fs)
    decreases |fs|
  {
    if fs == [] {
      assert es + fs == es;
    } else {
      var last := |fs| - 1;
      RunConcat(s, es, fs[..last]);
      assert (es + fs)[..|es + fs| - 1] == es + fs[..last];
    }
  }

  lemma RunStep(s: System, e: Event, es: seq<Event>)
    ensures Run(s, [e] + es) == Run(Next(s, e), es)
  {
    RunConcat(s, [e], es);
    assert [e][..0] == [];
    assert Run(s, [e]) == Next(Run(s, []), e);
  }

  // ---------------------------------------------------------------- workers

  predicate JobIs(lock: WriteLock, request: Request) {
    !lock.Free? && !lock.job.Untaken? && lock.job.request == request
  }

  /** The armed guards are those of looping and unwinding threads; there is
      one exactly while `workerRunning` is set, and never two. */
  ghost predicate WorkersOk(s: System) {
    && (forall i :: 0 <= i < |s.workers| ==>
          (s.workers[i].armed <==> s.workers[i].stage.Looping? || s.workers[i].stage.Unwinding?))
    && (forall i, j :: 0 <= i < |s.workers| && 0 <= j < |s.workers| && s.workers[i].armed && s.workers[j].armed ==>
        i == j)
    && (s.queue.workerRunning <==> exists i :: 0 <= i < |s.workers| && s.workers[i].armed)
    && (s.lock.ByWorker? ==> s.lock.worker < |s.workers| && s.workers[s.lock.worker].stage.Looping?)
    && (s.lock.ByFlush? ==> !s.lock.job.Untaken?)
  }

  lemma WorkersStep(s: System, e: Event)
    requires WorkersOk(s)
    ensures WorkersOk(Next(s, e))
  {
    match e
    case Emit(id, revision) => EmitKeepsWorkers(s, id, revision);
    case Panic(w) => PanicKeepsWorkers(s, w);
    case DropGuard(w) => DropGuardKeepsWorkers(s, w);
    case _ => OthersKeepWorkers(s, e);
  }

  lemma EmitKeepsWorkers(s: System, id: Id, revision: nat)
    requires WorkersOk(s)
    ensures WorkersOk(EmitStep(s, id, revision))
  {
    var t := EmitStep(s, id, revision);
    if |t.workers| > |s.workers| {
      assert t.workers[|s.workers|].armed;
    } else if t.queue.workerRunning {
      var i :| 0 <= i < |s.workers| && s.workers[i].armed;
      assert t.workers[i].armed;
    }
  }

  lemma PanicKeepsWorkers(s: System, w: nat)
    requires WorkersOk(s)
    ensures WorkersOk(PanicStep(s, w))
  {
    var t := PanicStep(s, w);
    if t != s {
      assert t.workers[w].armed;
    }
  }

  lemma DropGuardKeepsWorkers(s: System, w: nat)
    requires WorkersOk(s)
    ensures WorkersOk(DropGuardStep(s, w))
  {
    var t := DropGuardStep(s, w);
    if t.queue.workerRunning {
      var i :| 0 <= i < |s.workers| && s.workers[i].armed;
      assert t.workers[i].armed;
    }
  }

  lemma OthersKeepWorkers(s: System, e: Event)
    requires WorkersOk(s) && !e.Emit? && !e.Panic? && !e.DropGuard?
    ensures WorkersOk(Next(s, e))
  {
    if e.Take? && s.lock.ByWorker? {
      assert s.workers[s.lock.worker].armed;
    }
  }

  // ------------------------------------------------------------- the queue

  /** A waiting request is the selection everybody asked for. A request that
      a worker holds with nothing waiting behind it is too. */
  ghost predicate SelectionOk(s: System) {
    var q := s.queue;
    && (q.pending.Some? ==>
          q.latestDesired == q.latestRequested == Some(q.pending.value.workspaceId))
    && (q.pending.None? && s.lock.ByWorker? && !s.lock.job.Untaken? ==>
          q.latestDesired == q.latestRequested == Some(s.lock.job.request.workspaceId))
    && (q.latestRequested.Some? ==> q.latestDesired.Some?)
    && (s.lock.ByFlush? ==> q.latestDesired.Some?)
  }

  lemma SelectionStep(s: System, e: Event)
    requires WorkersOk(s) && SelectionOk(s)
    ensures SelectionOk(Next(s, e))
  {
    if s.lock.ByWorker? {
      assert s.workers[s.lock.worker].armed;
    }
  }

  /** What the row holds, whoever has the lock. */
  ghost predicate RowOk(s: System, startRow: Option<Id>) {
    && (s.torn.Some? ==> s.row == s.torn)
    && (s.torn.None? ==> s.row == if s.queue.lastPersisted.Some? then s.queue.lastPersisted else startRow)
    && (!s.lock.Free? && s.lock.job.Written? && s.lock.job.ok ==> s.torn == Some(s.lock.job.request.workspaceId))
  }

  lemma RowStep(s: System, e: Event, startRow: Option<Id>)
    requires RowOk(s, startRow)
    ensures RowOk(Next(s, e), startRow)
  {
  }

  /** Generations: everything handed out, waiting or held is below the
      counter, and all of it is ordered until the counter saturates. */
  ghost predicate GenerationsOk(s: System) {
    var q := s.queue;
    var n := |s.handedOut|;
    && q.nextGeneration <= U64_MAX
    && (forall i :: 0 <= i < n ==> s.handedOut[i] <= q.nextGeneration)
    && (forall i, j :: 0 <= i < j < n ==>
        s.handedOut[i] < s.handedOut[j] || s.handedOut[i] == s.handedOut[j] == U64_MAX)
    && (q.pending.Some? ==>
          && q.pending.value.generation <= q.nextGeneration
          && forall i :: 0 <= i < n ==>
               s.handedOut[i] < q.pending.value.generation || s.handedOut[i] == q.pending.value.generation == U64_MAX)
    && (!s.lock.Free? && !s.lock.job.Untaken? ==> n > 0 && s.lock.job.request.generation == s.handedOut[n - 1])
  }

  lemma GenerationsStep(s: System, e: Event)
    requires GenerationsOk(s)
    ensures GenerationsOk(Next(s, e))
  {
    match e
    case Emit(id, revision) => EmitKeepsGenerations(s, id, revision);
    case Take => TakeKeepsGenerations(s);
    case Flush => FlushKeepsGenerations(s);
    case _ =>
  }

  lemma EmitKeepsGenerations(s: System, id: Id, revision: nat)
    requires GenerationsOk(s)
    ensures GenerationsOk(EmitStep(s, id, revision))
  {
  }

  lemma TakeKeepsGenerations(s: System)
    requires GenerationsOk(s)
    ensures GenerationsOk(TakeStep(s))
  {
  }

  lemma FlushKeepsGenerations(s: System)
    requires GenerationsOk(s)
    ensures GenerationsOk(FlushStep(s))
  {
  }

  ghost predicate Inv(s: System, startRow: Option<Id>) {
    WorkersOk(s) && SelectionOk(s) && RowOk(s, startRow) && GenerationsOk(s)
  }

  lemma StartInv(row: Option<Id>, seeded: bool)
    ensures Inv(Start(row, seeded), row)
  {
  }

  lemma {:induction false} RunInv(s: System, es: seq<Event>, startRow: Option<Id>)
    requires Inv(s, startRow)
    ensures Inv(Run(s, es), startRow)
    decreases |es|
  {
    if es != [] {
      var last := |es| - 1;
      RunInv(s, es[..last], startRow);
      var m := Run(s, es[..last]);
      WorkersStep(m, es[last]);
      SelectionStep(m, es[last]);
      RowStep(m, es[last], startRow);
      GenerationsStep(m, es[last]);
    }
  }

  lemma Reachable(row: Option<Id>, seeded: bool, es: seq<Event>) returns (s: System)
    ensures s == Run(Start(row, seeded), es) && Inv(s, row)
  {
    StartInv(row, seeded);
    RunInv(Start(row, seeded), es, row);
    s := Run(Start(row, seeded), es);
  }
}
