/** The worker's loop and the shutdown flush as the threads run them, over the
    queue object and the database row. Both follow the step machine. */
module PersistWorker {
  import opened Basics
  import opened PersistQueue
  import opened PersistSystem

  class Database {
    var row: Option<Id>

    /** A failed write leaves the row untouched. */
    method SetUiState(id: Id, ok: bool)
      modifies this
      ensures row == if ok then Some(id) else old(row)
    {
      if ok {
        row := Some(id);
      }
    }
  }

  /** What happens around one write: whether it succeeds, and which emits
      arrive before it is acknowledged. */
  datatype Surroundings = Surroundings(ok: bool, arrivals: seq<Emitted>)

  function Emits(arrivals: seq<Emitted>): seq<Event> {
    seq(|arrivals|, i requires 0 <= i < |arrivals| => Emit(arrivals[i].id, arrivals[i].revision))
  }

  function Toasts(reports: seq<Report>): seq<Id>
    decreases |reports|
  {
    if reports == [] then []
    else
      var last := reports[|reports| - 1];
      Toasts(reports[..|reports| - 1]) + if last.Toasted? then [last.id] else []
  }

  lemma ToastsOfOneMore(reports: seq<Report>, r: Report)
    ensures Toasts(reports + [r]) == Toasts(reports) + if r.Toasted? then [r.id] else []
  {
    assert (reports + [r])[..|reports|] == reports;
  }

  ghost predicate Matches(queue: Queue, db: Database, s: System)
    reads queue, db
  {
    queue.State() == s.queue && db.row == s.row
  }

  /** The worker holds the lock with `request` in flight. */
  ghost predicate Holds(s: System, w: nat, request: Request) {
    WorkersOk(s) && SelectionOk(s) && s.lock == ByWorker(w, InFlight(request))
  }

  /** One emit that reaches the queue while the worker holds the lock. */
  lemma EmitWhileHeld(s: System, w: nat, request: Request, id: Id, revision: nat)
    requires Holds(s, w, request)
    ensures var t := Next(s, Emit(id, revision));
            && Holds(t, w, request) && t.workers == s.workers && t.row == s.row
            && Toasts(t.reports) == Toasts(s.reports)
            && t.queue == (if id == "" then s.queue else AfterEnqueue(s.queue, id, revision))
            && s.queue.workerRunning
  {
    assert s.workers[w].armed;
    WorkersStep(s, Emit(id, revision));
    SelectionStep(s, Emit(id, revision));
    ToastsOfOneMore(s.reports, Queued(id));
  }

  lemma EmitsOneMore(s: System, arrivals: seq<Emitted>, k: nat)
    requires k < |arrivals|
    ensures Run(s, Emits(arrivals)[..k + 1]) ==
            Next(Run(s, Emits(arrivals)[..k]), Emit(arrivals[k].id, arrivals[k].revision))
  {
    assert Emits(arrivals)[..k + 1][..k] == Emits(arrivals)[..k];
  }

  /** Emits that reach a running worker's queue start no second worker. */
  method Arrive(queue: Queue, db: Database, arrivals: seq<Emitted>, ghost s: System, ghost w: nat,
      ghost request: Request)
    returns (ghost t: System)
    requires Matches(queue, db, s) && Holds(s, w, request)
    modifies queue
    ensures t == Run(s, Emits(arrivals))
    ensures Matches(queue, db, t) && Holds(t, w, request)
    ensures t.workers == s.workers && t.row == s.row && Toasts(t.reports) == Toasts(s.reports)
  {
    t := s;
    assert Emits(arrivals)[..0] == [];
    for k := 0 to |arrivals|
      invariant t == Run(s, Emits(arrivals)[..k])
      invariant Matches(queue, db, t) && Holds(t, w, request)
      invariant t.workers == s.workers && t.row == s.row && Toasts(t.reports) == Toasts(s.reports)
    {
      var Emitted(id, revision) := arrivals[k];
      EmitWhileHeld(t, w, request, id, revision);
      EmitsOneMore(s, arrivals, k);
      if id != "" {
        var start := queue.Enqueue(id, revision);
        assert !start;
      }
      t := Next(t, Emit(id, revision));
    }
    assert Emits(arrivals)[..|arrivals|] == Emits(arrivals);
  }

  lemma RunLast(s: System, es: seq<Event>, e: Event)
    ensures Run(s, es + [e]) == Next(Run(s, es), e)
  {
    assert (es + [e])[..|es|] == es;
  }

  function Trip(around: Surroundings): seq<Event> {
    Emits(around.arrivals) + [Write(around.ok)] + [Finish]
  }

  /** The worker's write is done and not yet acknowledged. */
  lemma WriteWhileHeld(s: System, w: nat, request: Request, ok: bool)
    requires Holds(s, w, request)
    ensures var t := Next(s, Write(ok));
            && WorkersOk(t) && SelectionOk(t) && t.lock == ByWorker(w, Written(request, ok))
            && t.workers == s.workers && t.queue == s.queue && t.reports == s.reports
            && t.row == (if ok then Some(request.workspaceId) else s.row)
  {
    WorkersStep(s, Write(ok));
    SelectionStep(s, Write(ok));
  }

  lemma FinishWhileHeld(s: System, w: nat, request: Request, ok: bool)
    requires WorkersOk(s) && SelectionOk(s) && s.lock == ByWorker(w, Written(request, ok))
    ensures var t := Next(s, Finish);
            && WorkersOk(t) && SelectionOk(t) && t.lock.Free?
            && t.workers == s.workers && t.row == s.row && t.queue == AfterComplete(s.queue, request, ok)
            && Toasts(t.reports) ==
                 Toasts(s.reports) + if Reports(s.queue, request, ok) then [request.workspaceId] else []
  {
    WorkersStep(s, Finish);
    SelectionStep(s, Finish);
    if ok {
      ToastsOfOneMore(s.reports, Persisted(request.workspaceId));
    } else if Reports(s.queue, request, ok) {
      ToastsOfOneMore(s.reports, Toasted(request.workspaceId));
    } else {
      assert s.reports + [] == s.reports;
    }
  }

  /** The rest of a trip around the loop that found a request. Nothing waits
      afterwards only if no emit asked for another selection. */
  method Serve(queue: Queue, db: Database, request: Request, around: Surroundings, ghost s: System, ghost w: nat)
    returns (toast: bool, ghost t: System)
    requires Matches(queue, db, s) && Holds(s, w, request)
    modifies queue, db
    ensures t == Run(s, Trip(around))
    ensures Matches(queue, db, t) && WorkersOk(t) && SelectionOk(t) && t.lock.Free? && t.workers == s.workers
    ensures Toasts(t.reports) == Toasts(s.reports) + if toast then [request.workspaceId] else []
    ensures t.row == if around.ok then Some(request.workspaceId) else s.row
    ensures t.queue.pending.None? ==>
              && t.queue.latestDesired == Some(request.workspaceId)
              && t.queue.latestRequested == (if around.ok then Some(request.workspaceId) else None)
    ensures around.arrivals == [] && s.queue.pending.None? ==> t.queue.pending.None?
  {
    ghost var arrived := Arrive(queue, db, around.arrivals, s, w, request);
    RunLast(s, Emits(around.arrivals), Write(around.ok));
    RunLast(s, Emits(around.arrivals) + [Write(around.ok)], Finish);
    WriteWhileHeld(arrived, w, request, around.ok);
    FinishWhileHeld(Next(arrived, Write(around.ok)), w, request, around.ok);
    db.SetUiState(request.workspaceId, around.ok);
    toast := queue.Complete(request, around.ok);
    t := Next(Next(arrived, Write(around.ok)), Finish);
    if around.arrivals == [] {
      assert Emits(around.arrivals) == [];
    }
  }

  /** Taking under the write lock: a waiting request goes in flight, or the
      worker is done. */
  lemma TakeUnderLock(s: System, w: nat)
    requires WorkersOk(s) && SelectionOk(s) && s.lock == ByWorker(w, Untaken)
    ensures var t := Next(s, Take);
            && t.queue == AfterTake(s.queue) && t.row == s.row && t.reports == s.reports
            && WorkersOk(t) && SelectionOk(t)
            && (s.queue.pending.Some? ==>
                  t.workers == s.workers && t.lock == ByWorker(w, InFlight(s.queue.pending.value)))
            && (s.queue.pending.None? ==> t.workers == s.workers[w := Worker(false, Returning)] && t.lock.Free?)
  {
    WorkersStep(s, Take);
    SelectionStep(s, Take);
  }

  lemma AcquireAndTake(s: System, w: nat)
    requires WorkersOk(s) && SelectionOk(s) && s.lock.Free? && w < |s.workers| && s.workers[w].stage.Looping?
    ensures WorkersOk(s.(lock := ByWorker(w, Untaken))) && SelectionOk(s.(lock := ByWorker(w, Untaken)))
    ensures Run(s, [Acquire(w)] + [Take]) == Next(s.(lock := ByWorker(w, Untaken)), Take)
  {
    RunLast(s, [], Acquire(w));
    assert [] + [Acquire(w)] == [Acquire(w)];
    RunLast(s, [Acquire(w)], Take);
  }

  /** What one trip does to the machine. */
  ghost predicate Tripped(s: System, t: System, w: nat, served: bool, toasts: seq<Id>) {
    && WorkersOk(t) && SelectionOk(t) && t.lock.Free? && w < |s.workers|
    && (served <==> s.queue.pending.Some?)
    && t.workers == (if served then s.workers else s.workers[w := Worker(false, Returning)])
    && Toasts(t.reports) == Toasts(s.reports) + toasts
    && (!served ==> t.row == s.row && !t.queue.workerRunning && t.queue == AfterTake(s.queue))
    && (served && t.queue.pending.None? && t.queue.latestRequested.Some? ==>
          t.row == t.queue.latestRequested == t.queue.latestDesired)
  }

  /** The worker started in `s`, where a request waited or not, and is in `t`. */
  ghost predicate Underway(s: System, t: System, w: nat, working: bool, toasts: seq<Id>) {
    && WorkersOk(t) && SelectionOk(t) && t.lock.Free?
    && w < |s.workers| && s.workers[w].stage.Looping?
    && t.workers == (if working then s.workers else s.workers[w := Worker(false, Returning)])
    && Toasts(t.reports) == Toasts(s.reports) + toasts
    && (s.queue.pending.None? ==> t.row == s.row && t.queue.pending.None?)
    && (s.queue.pending.Some? && t.queue.pending.None? && t.queue.latestRequested.Some? ==>
          t.row == t.queue.latestRequested == t.queue.latestDesired)
    && (!working ==> !t.queue.workerRunning && t.queue.pending.None?)
  }

  lemma OneMoreTrip(s: System, t: System, u: System, w: nat, served: bool, toasts: seq<Id>, more: seq<Id>)
    requires Underway(s, t, w, true, toasts) && Tripped(t, u, w, served, more)
    ensures Underway(s, u, w, served, toasts + more)
  {
  }

  /** One trip around the loop. Returns whether there was a request, and the
      failure it surfaced, if any. */
  method Loop(queue: Queue, db: Database, around: Surroundings, ghost s: System, ghost w: nat)
    returns (served: bool, toasts: seq<Id>, ghost t: System, ghost es: seq<Event>)
    requires Matches(queue, db, s) && WorkersOk(s) && SelectionOk(s)
    requires s.lock.Free? && w < |s.workers| && s.workers[w].stage.Looping?
    modifies queue, db
    ensures t == Run(s, es) && Matches(queue, db, t) && Tripped(s, t, w, served, toasts)
    ensures served && around.arrivals == [] ==> t.queue.pending.None?
  {
    es := [Acquire(w)] + [Take];
    t := Run(s, es);
    AcquireAndTake(s, w);
    TakeUnderLock(s.(lock := ByWorker(w, Untaken)), w);
    assert WorkersOk(s) && s.workers[w].armed;
    var request := queue.Take();
    served, toasts := request.Some?, [];
    if request.Some? {
      var toast;
      toast, t := Serve(queue, db, request.value, around, t, w);
      RunConcat(s, es, Trip(around));
      es := es + Trip(around);
      toasts := if toast then [request.value.workspaceId] else [];
    }
  }

  /** A worker thread from its first trip to its return. `world` says what
      happens around each write in turn; after that writes succeed and nothing
      arrives. Returns the failures it surfaced, in order. */
  method Work(queue: Queue, db: Database, world: seq<Surroundings>, ghost s: System, ghost w: nat)
    returns (toasts: seq<Id>, ghost t: System, ghost es: seq<Event>)
    requires Matches(queue, db, s) && WorkersOk(s) && SelectionOk(s)
    requires s.lock.Free? && w < |s.workers| && s.workers[w].stage.Looping?
    modifies queue, db
    ensures t == Run(s, es) && Matches(queue, db, t) && t.lock.Free?
    ensures Toasts(t.reports) == Toasts(s.reports) + toasts
    ensures t.workers == s.workers[w := Worker(false, Returning)]
    ensures !queue.workerRunning && queue.pending.None?
    ensures old(queue.pending).Some? && queue.latestRequested.Some? ==>
              db.row == queue.latestRequested == queue.latestDesired
    ensures old(queue.pending).None? ==> db.row == old(db.row)
  {
    t, es, toasts := s, [], [];
    var k := 0;
    var working := true;
    while working
      invariant 0 <= k <= |world|
      invariant t == Run(s, es) && Matches(queue, db, t) && Underway(s, t, w, working, toasts)
      decreases working, |world| - k, queue.pending.Some?
    {
      var around := if k < |world| then world[k] else Surroundings(true, []);
      var more;
      ghost var steps, u;
      working, more, u, steps := Loop(queue, db, around, t, w);
      RunConcat(s, es, steps);
      OneMoreTrip(s, t, u, w, working, toasts, more);
      es, t := es + steps, u;
      toasts := toasts + more;
      k := if k < |world| then k + 1 else k;
    }
  }

  /** The shutdown drain, with nothing else running. Returns whether it
      succeeded; success with a selection at hand leaves the row holding it. */
  method FlushLatest(queue: Queue, db: Database, ok: bool, ghost s: System) returns (success: bool, ghost t: System)
    requires Matches(queue, db, s) && s.lock.Free?
    modifies queue, db
    ensures t == Run(s, [Flush] + [Write(ok)] + [Finish]) && Matches(queue, db, t) && t.lock.Free?
    ensures success <==> ok || !FlushHasWork(s.queue)
    ensures FlushHasWork(s.queue) ==> db.row == if ok then queue.latestDesired else old(db.row)
    ensures !FlushHasWork(s.queue) ==> t == s
    ensures queue.latestDesired == old(queue.latestDesired)
  {
    RunLast(s, [], Flush);
    assert [] + [Flush] == [Flush];
    RunLast(s, [Flush], Write(ok));
    RunLast(s, [Flush] + [Write(ok)], Finish);
    t := Next(Next(Next(s, Flush), Write(ok)), Finish);
    var request := queue.TakeLatestForFlush();
    if request.None? {
      return true, t;
    }
    db.SetUiState(request.value.workspaceId, ok);
    var _ := queue.Complete(request.value, ok);
    success := ok;
  }
}
