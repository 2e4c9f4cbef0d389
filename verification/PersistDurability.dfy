/** What every run of the selection stream guarantees about the database row,
    the worker threads, the accepted selection and the request generations. */
module PersistDurability {
  import opened Basics
  import opened PersistQueue
  import opened PersistSystem

  // ---------------------------------------------------------------- workers

  ghost function Armed(s: System): set<nat> {
    set i | 0 <= i < |s.workers| && s.workers[i].armed
  }

  /** In every reachable state the number of armed exit guards is one while
      `workerRunning` is set and zero otherwise. */
  lemma ArmedWorkersMatchTheFlag(row: Option<Id>, seeded: bool, es: seq<Event>)
    ensures var s := Run(Start(row, seeded), es);
            |Armed(s)| == if s.queue.workerRunning then 1 else 0
  {
    var s := Reachable(row, seeded, es);
    if s.queue.workerRunning {
      var i :| 0 <= i < |s.workers| && s.workers[i].armed;
      assert Armed(s) == {i};
    } else {
      assert Armed(s) == {};
    }
  }

  /** An emit adds a worker exactly when it turns the flag on, and an exit
      guard that drops turns the flag off exactly when its own thread died
      armed: the guard of a finished worker never touches a replacement. */
  lemma GuardsAndEmitsKeepTheFlag(row: Option<Id>, seeded: bool, es: seq<Event>, id: Id, revision: nat, w: nat)
    requires id != ""
    ensures var s := Run(Start(row, seeded), es);
            var t := Next(s, Emit(id, revision));
            |t.workers| == |s.workers| + 1 <==> (!s.queue.workerRunning && t.queue.workerRunning)
    ensures var s := Run(Start(row, seeded), es);
            var t := Next(s, DropGuard(w));
            && (w < |s.workers| && s.workers[w].stage.Returning? ==> t.queue == s.queue && Armed(t) == Armed(s))
            && (w < |s.workers| && s.workers[w].stage.Unwinding? ==>
                s.queue.workerRunning && Armed(s) == {w} && Armed(t) == {})
  {
    var s := Reachable(row, seeded, es);
    if w < |s.workers| && s.workers[w].stage.Unwinding? {
      assert s.workers[w].armed;
    }
  }

  // -------------------------------------------------------------- selection

  ghost predicate OneIdPerRevision(emits: seq<Emitted>) {
    && (forall i :: 0 <= i < |emits| ==> emits[i].revision >= 1)
    && (forall i, j :: 0 <= i < |emits| && 0 <= j < |emits| && emits[i].revision == emits[j].revision ==>
        emits[i].id == emits[j].id)
  }

  ghost predicate Newest(emits: seq<Emitted>, i: int) {
    0 <= i < |emits| && forall j :: 0 <= j < |emits| ==> emits[j].revision <= emits[i].revision
  }

  ghost predicate RegisterOk(s: System) {
    && (s.emits == [] ==> s.queue.latestStateRevision == 0)
    && (s.emits != [] ==> exists i :: Newest(s.emits, i) && s.emits[i].revision == s.queue.latestStateRevision
                                      && s.queue.latestDesired == Some(s.emits[i].id))
  }

  lemma RegisterStep(s: System, e: Event)
    requires RegisterOk(s) && OneIdPerRevision(Next(s, e).emits)
    ensures RegisterOk(Next(s, e))
  {
    var t := Next(s, e);
    if e.Emit? && e.id != "" {
      var n := |s.emits|;
      assert t.emits[n] == Emitted(e.id, e.revision);
      if s.emits != [] {
        var i :| Newest(s.emits, i) && s.emits[i].revision == s.queue.latestStateRevision
                 && s.queue.latestDesired == Some(s.emits[i].id);
        assert t.emits[i] == s.emits[i];
        if e.revision < s.queue.latestStateRevision {
          assert Newest(t.emits, i);
        } else {
          assert Newest(t.emits, n);
        }
      } else {
        assert Newest(t.emits, n);
      }
    }
  }

  lemma {:induction false} RegisterRun(s: System, es: seq<Event>)
    requires RegisterOk(s) && OneIdPerRevision(Run(s, es).emits)
    ensures RegisterOk(Run(s, es))
    decreases |es|
  {
    if es != [] {
      var last := |es| - 1;
      var m := Run(s, es[..last]);
      assert m.emits <= Next(m, es[last]).emits;
      RegisterRun(s, es[..last]);
      RegisterStep(m, es[last]);
    }
  }

  /** When each revision names one workspace, the accepted selection is the
      one with the highest revision emitted so far, whatever the delivery
      order and whatever workers, writes, panics and flushes did meanwhile. */
  lemma LatestDesiredIsTheNewestEmit(row: Option<Id>, seeded: bool, es: seq<Event>, i: nat)
    requires OneIdPerRevision(Run(Start(row, seeded), es).emits)
    requires Newest(Run(Start(row, seeded), es).emits, i)
    ensures var s := Run(Start(row, seeded), es);
            s.queue.latestDesired == Some(s.emits[i].id) && s.queue.latestStateRevision == s.emits[i].revision
  {
    RegisterRun(Start(row, seeded), es);
    var s := Run(Start(row, seeded), es);
    var k :| Newest(s.emits, k) && s.emits[k].revision == s.queue.latestStateRevision
             && s.queue.latestDesired == Some(s.emits[k].id);
  }

  /** A waiting request is for the accepted selection, in every run and
      without any assumption on revisions. */
  lemma {:induction false} PendingIsTheDesiredSelection(row: Option<Id>, seeded: bool, es: seq<Event>)
    ensures var q := Run(Start(row, seeded), es).queue;
            q.pending.Some? ==> q.latestDesired == q.latestRequested == Some(q.pending.value.workspaceId)
  {
    var s := Reachable(row, seeded, es);
  }

  // ------------------------------------------------------------ generations

  /** Generations handed to the worker and to flushes strictly increase over
      every run, exactly as long as the counter has not saturated. */
  lemma GenerationsIncrease(row: Option<Id>, seeded: bool, es: seq<Event>, i: nat, j: nat)
    requires i < j < |Run(Start(row, seeded), es).handedOut|
    ensures var handedOut := Run(Start(row, seeded), es).handedOut;
            && handedOut[i] <= handedOut[j]
            && (handedOut[i] < handedOut[j] <==> handedOut[i] != U64_MAX)
  {
    var s := Reachable(row, seeded, es);
  }

  // -------------------------------------------------------------------- row

  /** The step kills a writer between its write landing and `complete`. */
  predicate TearsWrite(s: System, e: Event) {
    && !s.lock.Free? && s.lock.job.Written? && s.lock.job.ok
    && ((e.Panic? && s.lock.ByWorker? && s.lock.worker == e.worker) || (e.FlushPanic? && s.lock.ByFlush?))
  }

  /** The step's write reaches the row. */
  predicate Lands(s: System, e: Event) {
    e == Write(true) && !s.lock.Free? && s.lock.job.InFlight?
  }

  ghost predicate TearsAt(s: System, es: seq<Event>, k: int, id: Id) {
    0 <= k < |es| && TearsWrite(Run(s, es[..k]), es[k]) && Run(s, es[..k]).lock.job.request.workspaceId == id
  }

  ghost predicate LandsAt(s: System, es: seq<Event>, k: int) {
    0 <= k < |es| && Lands(Run(s, es[..k]), es[k])
  }

  /** Some event of the run kills the writer of `id` after its write landed and
      before it was acknowledged, and no later write lands. */
  ghost predicate LeavesTorn(s: System, es: seq<Event>, id: Id) {
    exists k :: TearsAt(s, es, k, id) && forall j :: k < j ==> !LandsAt(s, es, j)
  }

  lemma LeavesTornStep(s: System, es: seq<Event>, id: Id)
    requires es != []
    ensures var before, e := es[..|es| - 1], es[|es| - 1];
            var m := Run(s, before);
            LeavesTorn(s, es, id) <==>
              (TearsWrite(m, e) && m.lock.job.request.workspaceId == id) || (!Lands(m, e) && LeavesTorn(s, before, id))
  {
    var last := |es| - 1;
    var before := es[..last];
    assert forall k :: 0 <= k < last ==> before[..k] == es[..k];
    forall k ensures TearsAt(s, es, k, id) <==> TearsAt(s, before, k, id) || (k == last && TearsAt(s, es, last, id)) {}
    forall k ensures LandsAt(s, es, k) <==> LandsAt(s, before, k) || (k == last && LandsAt(s, es, last)) {}
    if TearsAt(s, es, last, id) {
      assert forall j :: last < j ==> !LandsAt(s, es, j);
    }
    if k :| TearsAt(s, before, k, id) && (forall j :: k < j ==> !LandsAt(s, before, j)) && !LandsAt(s, es, last) {
      assert TearsAt(s, es, k, id) && forall j :: k < j ==> !LandsAt(s, es, j);
    }
  }

  /** The writer whose write landed still holds the lock. */
  predicate Unacknowledged(s: System) {
    !s.lock.Free? && s.lock.job.Written? && s.lock.job.ok
  }

  /** A write of `id` is left unacknowledged, its writer being gone. */
  predicate Left(s: System, id: Id) {
    s.torn == Some(id) && !Unacknowledged(s)
  }

  lemma TornStep(s: System, e: Event, row: Option<Id>, id: Id)
    requires WorkersOk(s) && RowOk(s, row)
    ensures Left(Next(s, e), id) <==>
            (TearsWrite(s, e) && s.lock.job.request.workspaceId == id) || (!Lands(s, e) && Left(s, id))
  {
  }

  lemma {:induction false} TornHasItsEvent(s: System, es: seq<Event>, row: Option<Id>, id: Id)
    requires Inv(s, row) && s.torn.None?
    ensures LeavesTorn(s, es, id) <==> Left(Run(s, es), id)
    decreases |es|
  {
    if es != [] {
      var before := es[..|es| - 1];
      TornHasItsEvent(s, before, row, id);
      RunInv(s, before, row);
      LeavesTornStep(s, es, id);
      TornStep(Run(s, before), es[|es| - 1], row, id);
    }
  }

  /** With the write lock free, the remembered persisted selection is what
      the row holds, except exactly when the last write that landed was of
      another id and its writer died before acknowledging it. */
  lemma RememberedRowIsTheRow(row: Option<Id>, seeded: bool, es: seq<Event>)
    requires Run(Start(row, seeded), es).lock.Free?
    ensures var s := Run(Start(row, seeded), es);
            var torn := exists id :: s.queue.lastPersisted != Some(id) && LeavesTorn(Start(row, seeded), es, id);
            && (s.queue.lastPersisted.Some? ==> (s.queue.lastPersisted == s.row <==> !torn))
            && (s.queue.lastPersisted.None? && !torn ==> s.row == row)
  {
    var s := Reachable(row, seeded, es);
    StartInv(row, seeded);
    forall id ensures LeavesTorn(Start(row, seeded), es, id) <==> s.torn == Some(id) {
      TornHasItsEvent(Start(row, seeded), es, row, id);
    }
  }

  /** A flush that finds nothing to do: the row holds the accepted selection
      exactly when the last write that landed was not of another id with a
      writer that died before acknowledging it. */
  lemma IdleFlushMeansDurable(row: Option<Id>, seeded: bool, es: seq<Event>)
    requires var s := Run(Start(row, seeded), es);
             s.lock.Free? && !FlushHasWork(s.queue) && s.queue.latestDesired.Some?
    ensures var s := Run(Start(row, seeded), es);
            s.row == s.queue.latestDesired <==>
            !exists id :: s.queue.latestDesired != Some(id) && LeavesTorn(Start(row, seeded), es, id)
  {
    RememberedRowIsTheRow(row, seeded, es);
  }

  ghost predicate NeverTears(s: System, es: seq<Event>) {
    forall k :: 0 <= k < |es| ==> !TearsWrite(Run(s, es[..k]), es[k])
  }

  ghost predicate Acknowledged(s: System) {
    s.torn.Some? ==> !s.lock.Free? && s.lock.job.Written? && s.lock.job.ok
  }

  lemma AcknowledgedStep(s: System, e: Event)
    requires Acknowledged(s) && !TearsWrite(s, e)
    ensures Acknowledged(Next(s, e))
  {
  }

  lemma {:induction false} NeverTearsIsAcknowledged(s: System, es: seq<Event>)
    requires Acknowledged(s) && NeverTears(s, es)
    ensures Acknowledged(Run(s, es))
    decreases |es|
  {
    if es != [] {
      var last := |es| - 1;
      assert forall k :: 0 <= k < last ==> es[..last][..k] == es[..k];
      NeverTearsIsAcknowledged(s, es[..last]);
      AcknowledgedStep(Run(s, es[..last]), es[last]);
    }
  }

  /** When no writer dies after its write landed, every idle flush and every
      free lock finds the row as remembered: failed writes, earlier panics,
      stale emits and flushes in any order notwithstanding. */
  lemma {:induction false} UntornRunsStayDurable(row: Option<Id>, seeded: bool, es: seq<Event>)
    requires NeverTears(Start(row, seeded), es) && Run(Start(row, seeded), es).lock.Free?
    ensures var s := Run(Start(row, seeded), es);
            && s.row == (if s.queue.lastPersisted.Some? then s.queue.lastPersisted else row)
            && (s.queue.latestDesired.Some? && !FlushHasWork(s.queue) ==> s.row == s.queue.latestDesired)
  {
    var s := Reachable(row, seeded, es);
    NeverTearsIsAcknowledged(Start(row, seeded), es);
  }

  /** The exception is real: "a" is durable, the write of "b" lands and its
      worker dies, the user returns to "a". The queue takes "a" for durable,
      a flush finds nothing to do, and the row keeps "b". */
  lemma TornWriteDefeatsTheFlush()
    ensures exists es :: var s := Run(Start(Some("a"), true), es);
              && s.lock.Free? && !s.queue.workerRunning && Next(s, Flush) == s
              && s.queue.latestDesired == Some("a") && s.row == Some("b")
  {
    var es :| es == [Emit("b", 1), Acquire(0), Take, Write(true), Panic(0), DropGuard(0), Emit("a", 2)];
    var s0 :| s0 == Start(Some("a"), true);
    var taken := FirstTake(s0, es);
    TornEnds(taken, es[3..]);
    FoldIsRun(s0, es);
    assert Run(Start(Some("a"), true), es) == Fold(s0, es);
  }

  /** "a" was restored, and a worker has just taken the request for "b". */
  ghost predicate BIsTaken(s: System) {
    && s.queue == QueueState(1, 1, None, true, Some("b"), Some("b"), Some("a"), None)
    && s.row == Some("a") && s.torn.None?
    && s.lock == ByWorker(0, InFlight(Request(1, "b")))
    && s.workers == [Worker(true, Looping)]
  }

  lemma FirstTake(s: System, es: seq<Event>) returns (taken: System)
    requires s == Start(Some("a"), true)
    requires |es| >= 3 && es[0] == Emit("b", 1) && es[1] == Acquire(0) && es[2] == Take
    ensures BIsTaken(taken) && Fold(s, es) == Fold(taken, es[3..])
  {
    FoldThree(s, es);
    taken := Next(Next(Next(s, es[0]), es[1]), es[2]);
    assert StartsWorker(s.queue, "b", 1);
  }

  lemma TornEnds(taken: System, es: seq<Event>)
    requires BIsTaken(taken) && es == [Write(true), Panic(0), DropGuard(0), Emit("a", 2)]
    ensures var s := Fold(taken, es);
            && s.lock.Free? && !s.queue.workerRunning && Next(s, Flush) == s
            && s.queue.latestDesired == Some("a") && s.row == Some("b")
  {
    FoldThree(taken, es);
    var dead := Next(Next(Next(taken, es[0]), es[1]), es[2]);
    assert dead.queue == taken.queue.(workerRunning := false) && dead.lock.Free? && dead.row == Some("b");
    assert Fold(dead, es[3..]) == Next(dead, Emit("a", 2)) by {
      assert es[3..] == [Emit("a", 2)];
      assert es[3..][1..] == [];
    }
  }

  /** The run read from the front. */
  function Fold(s: System, es: seq<Event>): System
    decreases |es|
  {
    if es == [] then s else Fold(Next(s, es[0]), es[1..])
  }

  lemma {:induction false} FoldIsRun(s: System, es: seq<Event>)
    ensures Fold(s, es) == Run(s, es)
    decreases |es|
  {
    if es != [] {
      assert es == [es[0]] + es[1..];
      RunStep(s, es[0], es[1..]);
      FoldIsRun(Next(s, es[0]), es[1..]);
    }
  }

  lemma FoldThree(s: System, es: seq<Event>)
    requires |es| >= 3
    ensures Fold(s, es) == Fold(Next(Next(Next(s, es[0]), es[1]), es[2]), es[3..])
  {
    assert es[1..][1..] == es[2..] && es[2..][1..] == es[3..];
    assert Fold(s, es) == Fold(Next(s, es[0]), es[1..]);
    assert Fold(Next(s, es[0]), es[1..]) == Fold(Next(Next(s, es[0]), es[1]), es[2..]);
  }

  // ------------------------------------------------------------------ flush

  ghost predicate FlushHolds(s: System, es: seq<Event>) {
    forall k :: 0 <= k <= |es| ==> Run(s, es[..k]).lock.ByFlush?
  }

  lemma {:induction false} FlushKeepsItsRequest(s: System, es: seq<Event>, request: Request)
    requires FlushHolds(s, es) && JobIs(s.lock, request)
    ensures JobIs(Run(s, es).lock, request)
    decreases |es|
  {
    if es != [] {
      var last := |es| - 1;
      assert forall k :: 0 <= k <= last ==> es[..last][..k] == es[..k];
      FlushKeepsItsRequest(s, es[..last], request);
      assert es[..|es|] == es;
    }
  }

  /** A successful flush leaves the row equal to the selection that was
      accepted when it took its request, however many emits, panics and guard
      drops interleave while it holds the write lock. */
  lemma SuccessfulFlushWritesWhatItSaw(row: Option<Id>, seeded: bool, before: seq<Event>, during: seq<Event>)
    requires var s := Run(Start(row, seeded), before);
             && s.lock.Free? && FlushHasWork(s.queue)
             && FlushHolds(Next(s, Flush), during)
             && var t := Run(Next(s, Flush), during);
                t.lock.ByFlush? && t.lock.job.Written? && t.lock.job.ok
    ensures var s := Run(Start(row, seeded), before);
            var done := Next(Run(Next(s, Flush), during), Finish);
            done.lock.Free? && done.row == done.queue.lastPersisted == s.queue.latestDesired && done.torn.None?
  {
    var s := Reachable(row, seeded, before);
    FlushKeepsItsRequest(Next(s, Flush), during, FlushRequest(s.queue));
    RunInv(Next(s, Flush), during, row) by {
      WorkersStep(s, Flush);
      SelectionStep(s, Flush);
      RowStep(s, Flush, row);
      GenerationsStep(s, Flush);
    }
  }

  /** It need not leave the row equal to the selection accepted by then: an
      emit that returns to the still-remembered selection while the flush is
      writing is taken for durable, and nothing is left to write it. */
  lemma EmitDuringFlushCanBeMissed()
    ensures exists es :: Missed(Run(Start(Some("a"), true), es))
  {
    var es := MissedEmit(Start(Some("a"), true));
    FoldIsRun(Start(Some("a"), true), es);
  }

  /** "a" is accepted, the row holds "b", and nobody is left to write. */
  predicate Missed(s: System) {
    && s.lock.Free? && !s.queue.workerRunning && s.queue.pending.None? && s.torn.None?
    && s.queue.latestDesired == Some("a") && s.row == Some("b")
  }

  lemma MissedEmit(s: System) returns (es: seq<Event>)
    requires s == Start(Some("a"), true)
    ensures Missed(Fold(s, es))
  {
    es :| es == [Emit("b", 1), Acquire(0), Take, Write(false), Finish, Acquire(0), Take, Flush, Emit("a", 2),
                 Write(true), Finish, DropGuard(0)];
    var taken := FirstTake(s, es);
    var failed := BFails(taken, es[3..]);
    assert es[3..][3..] == es[6..];
    FlushIsOvertaken(failed, es[6..]);
  }

  /** The worker's write of "b" failed, and it holds the lock again. */
  ghost predicate BHasFailed(s: System) {
    && s.queue == QueueState(1, 1, None, true, Some("b"), None, Some("a"), Some("b"))
    && s.row == Some("a") && s.torn.None?
    && s.lock == ByWorker(0, Untaken)
    && s.workers == [Worker(true, Looping)]
  }

  lemma BFails(taken: System, es: seq<Event>) returns (failed: System)
    requires BIsTaken(taken)
    requires |es| >= 3 && es[0] == Write(false) && es[1] == Finish && es[2] == Acquire(0)
    ensures BHasFailed(failed) && Fold(taken, es) == Fold(failed, es[3..])
  {
    FoldThree(taken, es);
    failed := Next(Next(Next(taken, es[0]), es[1]), es[2]);
  }

  lemma FlushIsOvertaken(failed: System, es: seq<Event>)
    requires BHasFailed(failed) && es == [Take, Flush, Emit("a", 2), Write(true), Finish, DropGuard(0)]
    ensures Missed(Fold(failed, es))
  {
    FoldThree(failed, es);
    var s := Next(Next(Next(failed, es[0]), es[1]), es[2]);
    assert s.lock == ByFlush(InFlight(Request(2, "b"))) && s.queue.latestDesired == Some("a")
           && !s.queue.workerRunning && s.queue.pending.None? && s.workers == [Worker(false, Returning)];
    FoldThree(s, es[3..]);
    assert es[3..][3..] == [];
  }
}
