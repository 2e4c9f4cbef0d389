/** What becomes of an emit, told by the queue's fields: who is left to write
    it, what it replaces, and what it leaves alone. */
module PersistEmits {
  import opened Basics
  import opened PersistQueue
  import opened PersistSystem
  import opened PersistDurability
  import opened PersistFlush

  /** A snapshot older than the newest accepted one is dropped, and so is one of
      that very revision for another workspace than the requested one. */
  predicate Superseded(q: QueueState, id: Id, revision: nat) {
    || revision < q.latestStateRevision
    || (revision == q.latestStateRevision && q.latestRequested.Some? && q.latestRequested.value != id)
  }

  /** A request for `id` is written and acknowledged under the lock right now. */
  predicate BeingWritten(s: System, id: Id) {
    !s.lock.Free? && !s.lock.job.Untaken? && s.lock.job.request.workspaceId == id
  }

  /** The selection waits with somebody to write it, is being written, or is
      remembered as persisted. */
  predicate TakenCareOf(s: System, id: Id) {
    || (s.queue.workerRunning && s.queue.pending.Some? && s.queue.pending.value.workspaceId == id)
    || BeingWritten(s, id)
    || (s.queue.pending.None? && s.queue.lastPersisted == Some(id))
  }

  /** Over every reachable state: a superseded emit changes nothing. Any other
      one becomes the accepted selection, and afterwards a worker runs, or
      nothing waits and the selection is remembered as persisted. A worker is
      started exactly when none ran and something waits. */
  lemma AcceptedEmitLeavesAWorker(row: Option<Id>, seeded: bool, es: seq<Event>, id: Id, revision: nat)
    requires id != ""
    ensures var s := Run(Start(row, seeded), es);
            var t := Next(s, Emit(id, revision));
            && (Superseded(s.queue, id, revision) ==> t.queue == s.queue && t.workers == s.workers)
            && (!Superseded(s.queue, id, revision) ==>
                  && t.queue.latestDesired == Some(id) && t.queue.latestStateRevision == revision
                  && (t.queue.workerRunning || (t.queue.pending.None? && t.queue.lastPersisted == Some(id)))
                  && (t.queue.pending.Some? ==> t.queue.pending.value.workspaceId == id)
                  && (t.workers == s.workers + [Worker(true, Looping)] <==>
                        !s.queue.workerRunning && t.queue.pending.Some?))
            && (t.workers != s.workers ==> t.workers == s.workers + [Worker(true, Looping)])
  {
    var s := Reachable(row, seeded, es);
    assert |s.workers + [Worker(true, Looping)]| == |s.workers| + 1;
  }

  /** An emit of the id that already waits or is written under a running worker,
      and one of the remembered selection while nothing is going on, ask for
      no write. An emit of another id puts a fresh request into the slot. */
  lemma DuplicatesAskForNothing(row: Option<Id>, seeded: bool, es: seq<Event>, id: Id, revision: nat)
    requires id != "" && !Superseded(Run(Start(row, seeded), es).queue, id, revision)
    ensures var s := Run(Start(row, seeded), es);
            var q, t := s.queue, Next(s, Emit(id, revision)).queue;
            var waits := q.pending.Some? && q.pending.value.workspaceId == id;
            var held := q.pending.None? && s.lock.ByWorker? && BeingWritten(s, id);
            var durable := !q.workerRunning && q.pending.None? && q.lastPersisted == Some(id);
            && (waits || held || durable ==> t.pending == q.pending && t.nextGeneration == q.nextGeneration)
            && (durable ==> !t.workerRunning)
            && ((q.pending.Some? || q.workerRunning) && q.latestRequested != Some(id) ==>
                  && t.pending.Some? && t.pending.value.workspaceId == id
                  && t.nextGeneration == t.pending.value.generation
                  && (q.nextGeneration < U64_MAX ==> t.nextGeneration > q.nextGeneration))
  {
    var s := Reachable(row, seeded, es);
    if s.lock.ByWorker? {
      assert s.workers[s.lock.worker].armed;
    }
  }

  // ------------------------------------------------- emits that are forgotten

  /** A running worker with nothing waiting, asked for `id`, which nobody writes
      and nobody remembers as persisted: whoever wrote it has died. */
  predicate Orphaned(s: System, id: Id) {
    && s.queue.workerRunning && s.queue.pending.None? && s.queue.latestRequested == Some(id)
    && !BeingWritten(s, id) && s.queue.lastPersisted != Some(id)
  }

  /** After an accepted emit its selection is taken care of, if and only if it
      was not orphaned before. */
  lemma EmitIsTakenCareOf(row: Option<Id>, seeded: bool, es: seq<Event>, id: Id, revision: nat)
    requires id != "" && !Superseded(Run(Start(row, seeded), es).queue, id, revision)
    ensures var s := Run(Start(row, seeded), es);
            TakenCareOf(Next(s, Emit(id, revision)), id) <==> !Orphaned(s, id)
  {
    var s := Reachable(row, seeded, es);
    if s.lock.ByWorker? {
      assert s.workers[s.lock.worker].armed;
    }
  }

  predicate Dies(e: Event) {
    e.Panic? || e.FlushPanic?
  }

  ghost predicate NobodyDies(es: seq<Event>) {
    forall k :: 0 <= k < |es| ==> !Dies(es[k])
  }

  /** A running worker with nothing waiting was last asked for something that
      is being written or remembered. */
  ghost predicate NoOrphan(s: System) {
    && (s.queue.workerRunning && s.queue.pending.None? && s.queue.latestRequested.Some? ==>
          var id := s.queue.latestRequested.value;
          (BeingWritten(s, id) || s.queue.lastPersisted == Some(id)) && s.queue.latestDesired == Some(id))
    && (forall i :: 0 <= i < |s.workers| ==> !s.workers[i].stage.Unwinding?)
  }

  lemma NoOrphanStep(s: System, e: Event)
    requires WorkersOk(s) && SelectionOk(s) && IdleOk(s) && NoOrphan(s) && !Dies(e)
    ensures NoOrphan(Next(s, e))
  {
    if s.lock.ByWorker? {
      assert s.workers[s.lock.worker].armed;
    }
  }

  lemma {:induction false} NoOrphanRun(row: Option<Id>, seeded: bool, es: seq<Event>)
    requires NobodyDies(es)
    ensures NoOrphan(Run(Start(row, seeded), es))
    decreases |es|
  {
    if es != [] {
      var last := |es| - 1;
      NoOrphanRun(row, seeded, es[..last]);
      StartInv(row, seeded);
      IdleRun(Start(row, seeded), es[..last], row);
      NoOrphanStep(Run(Start(row, seeded), es[..last]), es[last]);
    }
  }

  /** As long as no writer dies, every accepted emit is taken care of, whatever
      failed before: a failed write is tried again. */
  lemma NoEmitIsForgotten(row: Option<Id>, seeded: bool, es: seq<Event>, id: Id, revision: nat)
    requires NobodyDies(es) && id != "" && !Superseded(Run(Start(row, seeded), es).queue, id, revision)
    ensures TakenCareOf(Next(Run(Start(row, seeded), es), Emit(id, revision)), id)
  {
    NoOrphanRun(row, seeded, es);
    EmitIsTakenCareOf(row, seeded, es, id, revision);
  }

  /** With a death it can be forgotten: "b" is taken by a worker that panics;
      before its exit guard drops, "b" is emitted again and taken for a request
      in flight. Then the guard drops, and nobody writes it. */
  lemma EmitBeforeTheGuardIsForgotten()
    ensures exists es :: Forgotten(Run(Start(Some("a"), true), es))
  {
    var es := ForgottenEmit(Start(Some("a"), true));
    FoldIsRun(Start(Some("a"), true), es);
  }

  lemma ForgottenEmit(s: System) returns (es: seq<Event>)
    requires s == Start(Some("a"), true)
    ensures Forgotten(Fold(s, es))
  {
    es :| es == [Emit("b", 1), Acquire(0), Take, Panic(0), Emit("b", 2), DropGuard(0)];
    var taken := FirstTake(s, es);
    ForgottenEnds(taken, es[3..]);
  }

  /** "b" is accepted, the row holds "a", and nobody is left to write. */
  predicate Forgotten(s: System) {
    && s.lock.Free? && !s.queue.workerRunning && s.queue.pending.None? && s.torn.None?
    && s.queue.latestDesired == Some("b") && s.row == Some("a")
  }

  lemma ForgottenEnds(taken: System, es: seq<Event>)
    requires BIsTaken(taken) && es == [Panic(0), Emit("b", 2), DropGuard(0)]
    ensures Forgotten(Fold(taken, es))
  {
    FoldThree(taken, es);
    assert es[3..] == [];
    var dead := Next(taken, es[0]);
    assert dead.queue == taken.queue && dead.workers == [Worker(true, Unwinding)] && dead.lock.Free?;
    var again := Next(dead, es[1]);
    assert again.workers == dead.workers && again.queue.pending.None?;
  }

  // ----------------------------------------------------- starting and flushing

  /** After startup the restored selection needs no write: an emit of it starts
      no worker and queues nothing, and a flush leaves everything as it is. Any
      other emit starts a worker with a request. */
  lemma StartupRemembersTheRow(row: Id, id: Id, revision: nat)
    requires id != ""
    ensures var s := Start(Some(row), true);
            var t := Next(s, Emit(id, revision));
            && Next(s, Flush) == s
            && (id == row ==> t.workers == [] && t.queue.pending.None? && Next(t, Flush) == t)
            && (id != row && revision > 0 ==>
                  |t.workers| == 1 && t.queue.pending.Some? && t.queue.pending.value.workspaceId == id)
  {
  }

  /** Seeding while work is under way changes nothing; otherwise the seeded
      selection is taken for accepted, requested and persisted. */
  lemma SeedingNeverOverridesWork(q: QueueState, id: Id)
    ensures var seeded := AfterSeed(q, id);
            && (q.workerRunning || q.pending.Some? ==> seeded == q)
            && (!q.workerRunning && q.pending.None? ==>
                  && seeded.latestDesired == seeded.latestRequested == seeded.lastPersisted == Some(id)
                  && seeded.pending.None? && !seeded.workerRunning && !FlushHasWork(seeded))
  {
  }

  /** A flush that gets the lock has nothing to do exactly if no selection was
      ever accepted, or the accepted one is remembered as persisted and nothing
      waits. Otherwise it takes the accepted one out of the queue. */
  lemma FlushTakesExactly(s: System)
    requires s.lock.Free?
    ensures var t := Next(s, Flush);
            var q := s.queue;
            && (t == s <==> q.latestDesired.None? || (q.lastPersisted == q.latestDesired && q.pending.None?))
            && (t != s ==> t.queue.pending.None? && BeingWritten(t, q.latestDesired.value) && t.lock.ByFlush?)
  {
  }
}
