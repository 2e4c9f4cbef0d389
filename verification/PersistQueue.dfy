/** The write-behind queue for the active workspace selection: one bounded
    slot of pending work, the bookkeeping that deduplicates emits, and the
    bookkeeping that decides which failures are surfaced. */
module PersistQueue {
  import opened Basics

  type Id = string

  datatype Request = Request(generation: nat, workspaceId: Id)

  /** The value of the queue between two of its methods. */
  datatype QueueState = QueueState(
    nextGeneration: nat,
    latestStateRevision: nat,
    pending: Option<Request>,
    workerRunning: bool,
    latestDesired: Option<Id>,
    latestRequested: Option<Id>,
    lastPersisted: Option<Id>,
    lastReportedFailure: Option<Id>)

  const EMPTY := QueueState(0, 0, None, false, None, None, None, None)

  /** An emit is stale when a newer snapshot was accepted, or when its own
      revision was already accepted for another workspace. */
  predicate Stale(q: QueueState, id: Id, revision: nat) {
    || revision < q.latestStateRevision
    || (revision == q.latestStateRevision && q.latestRequested.Some? && q.latestRequested != Some(id))
  }

  /** An accepted emit needs no new request. */
  predicate Covered(q: QueueState, id: Id) {
    || (q.latestRequested == Some(id) && (q.workerRunning || q.pending.Some?))
    || (!q.workerRunning && q.pending.None? && q.lastPersisted == Some(id))
  }

  /** The emit puts a fresh request into the pending slot. */
  predicate Queues(q: QueueState, id: Id, revision: nat) {
    !Stale(q, id, revision) && !Covered(q, id)
  }

  /** The emit must start the worker: work is waiting afterwards and nobody
      is there to do it. */
  predicate StartsWorker(q: QueueState, id: Id, revision: nat) {
    !Stale(q, id, revision) && !q.workerRunning && (q.pending.Some? || !Covered(q, id))
  }

  function AfterEnqueue(q: QueueState, id: Id, revision: nat): QueueState {
    if Stale(q, id, revision) then q
    else
      var generation := SaturatingAdd(q.nextGeneration, 1);
      var accepted := q.(latestStateRevision := revision, latestDesired := Some(id),
                         workerRunning := q.workerRunning || StartsWorker(q, id, revision));
      if Covered(q, id) then accepted
      else accepted.(
        nextGeneration := generation,
        pending := Some(Request(generation, id)),
        latestRequested := Some(id),
        lastReportedFailure := if q.lastReportedFailure == Some(id) then Some(id) else None)
  }

  function AfterTake(q: QueueState): QueueState {
    if q.pending.Some? then q.(pending := None) else q.(workerRunning := false)
  }

  /** A failed request is surfaced when nothing newer waits, it is still the
      requested selection, and it was not surfaced before. */
  predicate Reports(q: QueueState, request: Request, succeeded: bool) {
    && !succeeded
    && (q.pending.Some? ==> q.pending.value.generation <= request.generation)
    && q.latestRequested == Some(request.workspaceId)
    && q.lastReportedFailure != Some(request.workspaceId)
  }

  function AfterComplete(q: QueueState, request: Request, succeeded: bool): QueueState {
    var id := Some(request.workspaceId);
    q.(lastPersisted := if succeeded then id else q.lastPersisted,
       lastReportedFailure :=
         if Reports(q, request, succeeded) then id
         else if succeeded && q.lastReportedFailure == id then None
         else q.lastReportedFailure,
       latestRequested :=
         if !succeeded && q.pending.None? && q.latestRequested == id then None else q.latestRequested)
  }

  function AfterSeed(q: QueueState, id: Id): QueueState {
    if q.workerRunning || q.pending.Some? then q
    else q.(latestRequested := Some(id), lastPersisted := Some(id), latestDesired := Some(id))
  }

  function AfterWorkerAbort(q: QueueState): QueueState {
    q.(workerRunning := false)
  }

  predicate FlushHasWork(q: QueueState) {
    q.latestDesired.Some? && !(q.lastPersisted == q.latestDesired && q.pending.None?)
  }

  function FlushRequest(q: QueueState): Request
    requires FlushHasWork(q)
  {
    Request(SaturatingAdd(q.nextGeneration, 1), q.latestDesired.value)
  }

  function AfterTakeForFlush(q: QueueState): QueueState {
    if FlushHasWork(q)
    then q.(pending := None, nextGeneration := SaturatingAdd(q.nextGeneration, 1))
    else q
  }

  /** The queue as the program keeps it: fields that its methods overwrite. */
  class Queue {
    var nextGeneration: nat
    var latestStateRevision: nat
    var pending: Option<Request>
    var workerRunning: bool
    var latestDesired: Option<Id>
    var latestRequested: Option<Id>
    var lastPersisted: Option<Id>
    var lastReportedFailure: Option<Id>

    ghost function State(): QueueState
      reads this
    {
      QueueState(nextGeneration, latestStateRevision, pending, workerRunning,
                 latestDesired, latestRequested, lastPersisted, lastReportedFailure)
    }

    constructor ()
      ensures State() == EMPTY
    {
      nextGeneration, latestStateRevision := 0, 0;
      pending, workerRunning := None, false;
      latestDesired, latestRequested := None, None;
      lastPersisted, lastReportedFailure := None, None;
    }

    /** Returns whether the caller must start the one worker: exactly when
        this call turned `workerRunning` on. */
    method Enqueue(workspaceId: Id, stateRevision: nat) returns (start: bool)
      modifies this
      ensures State() == AfterEnqueue(old(State()), workspaceId, stateRevision)
      ensures start <==> !old(workerRunning) && workerRunning
      ensures start <==> StartsWorker(old(State()), workspaceId, stateRevision)
      ensures State() == old(State()) || (latestDesired == Some(workspaceId) && latestStateRevision == stateRevision)
      ensures State() != old(State()) && pending.Some? ==> workerRunning
    {
      if stateRevision < latestStateRevision {
        return false;
      }
      if stateRevision == latestStateRevision && latestRequested.Some? && latestRequested != Some(workspaceId) {
        return false;
      }
      latestStateRevision := stateRevision;
      latestDesired := Some(workspaceId);
      var queuedOrInFlight := latestRequested == Some(workspaceId) && (workerRunning || pending.Some?);
      var alreadyDurable := !workerRunning && pending.None? && lastPersisted == Some(workspaceId);
      if queuedOrInFlight || alreadyDurable {
        if !workerRunning && pending.Some? {
          workerRunning := true;
          return true;
        }
        return false;
      }
      if lastReportedFailure != Some(workspaceId) {
        lastReportedFailure := None;
      }
      nextGeneration := SaturatingAdd(nextGeneration, 1);
      pending := Some(Request(nextGeneration, workspaceId));
      latestRequested := Some(workspaceId);
      if workerRunning {
        return false;
      }
      workerRunning := true;
      return true;
    }

    method Take() returns (request: Option<Request>)
      modifies this
      ensures State() == AfterTake(old(State()))
      ensures request == old(pending)
    {
      request := pending;
      pending := None;
      if request.None? {
        workerRunning := false;
      }
    }

    /** Returns whether this failure must be surfaced now. */
    method Complete(request: Request, succeeded: bool) returns (reportFailure: bool)
      modifies this
      ensures State() == AfterComplete(old(State()), request, succeeded)
      ensures reportFailure <==> Reports(old(State()), request, succeeded)
    {
      if succeeded {
        lastPersisted := Some(request.workspaceId);
        if lastReportedFailure == Some(request.workspaceId) {
          lastReportedFailure := None;
        }
      }
      var authoritative :=
        (pending.None? || pending.value.generation <= request.generation)
        && latestRequested == Some(request.workspaceId);
      reportFailure := !succeeded && authoritative && lastReportedFailure != Some(request.workspaceId);
      if reportFailure {
        lastReportedFailure := Some(request.workspaceId);
      }
      if pending.None? && latestRequested == Some(request.workspaceId) {
        latestRequested := if succeeded then Some(request.workspaceId) else None;
      }
    }

    method SeedPersisted(workspaceId: Id)
      modifies this
      ensures State() == AfterSeed(old(State()), workspaceId)
    {
      if workerRunning || pending.Some? {
        return;
      }
      latestRequested := Some(workspaceId);
      lastPersisted := Some(workspaceId);
      latestDesired := Some(workspaceId);
    }

    method ResetAfterWorkerAbort()
      modifies this
      ensures State() == AfterWorkerAbort(old(State()))
    {
      workerRunning := false;
    }

    method TakeLatestForFlush() returns (request: Option<Request>)
      modifies this
      ensures State() == AfterTakeForFlush(old(State()))
      ensures request.Some? <==> FlushHasWork(old(State()))
      ensures request.Some? ==> request.value == FlushRequest(old(State()))
    {
      if latestDesired.None? {
        return None;
      }
      var latest := latestDesired.value;
      if lastPersisted == Some(latest) && pending.None? {
        return None;
      }
      pending := None;
      nextGeneration := SaturatingAdd(nextGeneration, 1);
      return Some(Request(nextGeneration, latest));
    }
  }
}
